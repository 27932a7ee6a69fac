/**
 The caches of a live component tree and their upward invalidation
 (`_Readable` in src/modbus_connection/model/_planning.py, the item caches of
 _component_base.py, component_group.py and the membership of manual.py).

 A component caches its read targets and its read plan; a group of components keeps
 their merged ranges up to date. Whatever changes the tree drops the caches of the
 object it changed and of everything above it.
 */
module Caching {
  import opened Wrappers
  import opened Ranges
  import opened Merging
  import opened Planning
  import opened Reading
  import opened Pooling
  import opened Mapping

  type Plan = map<Space, seq<Range>>

  /** What a component reads by itself: its targets by key, its own map, and its limits. */
  datatype Own = Own(targets: seq<(string, ResolvedField)>, ranges: DeviceRanges, maxGap: int, maxSpan: int)
  {
    function Items(): (items: seq<ResolvedField>)
      ensures |items| == |targets| && forall i :: 0 <= i < |targets| ==> items[i] == targets[i].1
    {
      seq(|targets|, i requires 0 <= i < |targets| => targets[i].1)
    }
  }

  datatype Group = Group(key: string, instances: seq<Node>)

  /** Every instance of the groups, in order. */
  function Flat(groups: seq<Group>): seq<Node> {
    if groups == [] then [] else Flat(groups[..|groups| - 1]) + groups[|groups| - 1].instances
  }

  // ----- components -----

  /** A component's fields at one moment. */
  datatype State = State(
    parent: Node?, pool: Pool?, own: Own, statics: seq<Group>, dynamics: seq<Group>,
    ownItems: Option<seq<ResolvedField>>, staticItems: Option<seq<ResolvedField>>,
    dynamicItems: Option<seq<ResolvedField>>, readItems: Option<seq<ResolvedField>>,
    plan: Option<Plan>, mapped: Option<DeviceRanges>, depth: nat)
  {
    function Instances(): seq<Node> {
      Flat(statics) + Flat(dynamics)
    }

    /** Nothing is cached. */
    function Bare(): State {
      this.(ownItems := None, staticItems := None, dynamicItems := None, readItems := None, plan := None, mapped := None)
    }

    predicate SameLayout(was: State) {
      && parent == was.parent && pool == was.pool && own == was.own && depth == was.depth
      && statics == was.statics && dynamics == was.dynamics
    }
  }

  /**
   How a change to a component went: `Conflicting` when it was made but the group's maps no longer fit,
   `Unreadable` when they do but no plan reads what was added.
   */
  datatype Outcome = Done | Refused | Conflicting | Unreadable

  function Keys(targets: seq<(string, ResolvedField)>): set<string> {
    set t | t in targets :: t.0
  }

  function Kept(targets: seq<(string, ResolvedField)>, keep: set<string>): seq<(string, ResolvedField)> {
    if targets == [] then []
    else
      var rest, last := Kept(targets[..|targets| - 1], keep), targets[|targets| - 1];
      if last.0 in keep then rest + [last] else rest
  }

  function DropKey(targets: seq<(string, ResolvedField)>, key: string): seq<(string, ResolvedField)> {
    if targets == [] then []
    else
      var rest, last := DropKey(targets[..|targets| - 1], key), targets[|targets| - 1];
      if last.0 == key then rest else rest + [last]
  }

  function DropGroup(groups: seq<Group>, key: string): seq<Group> {
    if groups == [] then []
    else
      var rest, last := DropGroup(groups[..|groups| - 1], key), groups[|groups| - 1];
      if last.key == key then rest else rest + [last]
  }

  /** The component with a target more. */
  function WithTarget(s: State, key: string, target: ResolvedField): State {
    s.(own := s.own.(targets := s.own.targets + [(key, target)]))
  }

  /** The component with a group more: one with a count register is placed when polled. */
  function WithGroup(s: State, key: string, count: Option<ResolvedField>, run: seq<Node>): State {
    if count.Some? then s.(own := s.own.(targets := s.own.targets + [(key, count.value)]), dynamics := s.dynamics + [Group(key, [])])
    else s.(statics := s.statics + [Group(key, run)])
  }

  /** Every group stays as large as it is. */
  predicate SameSize(groups: seq<Group>, kept: seq<nat>, added: seq<Template>)
    requires |kept| == |added| == |groups|
  {
    forall k :: 0 <= k < |groups| ==> kept[k] >= |groups[k].instances| && added[k].statics == []
  }

  /** A group with its leading `keep` instances, then others. */
  function Regrouped(groups: seq<Group>, k: nat, keep: nat, run: seq<Node>): (now: seq<Group>)
    requires k < |groups|
    ensures |now| == |groups|
  {
    var existing := groups[k].instances;
    groups[k := groups[k].(instances := (if keep < |existing| then existing[..keep] else existing) + run)]
  }

  /** The first `n` groups so changed. */
  function AllRegrouped(groups: seq<Group>, kept: seq<nat>, runs: seq<seq<Node>>, n: nat): (now: seq<Group>)
    requires n <= |runs| && n <= |kept| == |groups|
    ensures |now| == |groups|
    decreases n
  {
    if n == 0 then groups else Regrouped(AllRegrouped(groups, kept, runs, n - 1), n - 1, kept[n - 1], runs[n - 1])
  }

  /** The instances of the first `n` runs, in order. */
  function Run(runs: seq<seq<Node>>, n: nat): seq<Node>
    requires n <= |runs|
  {
    if n == 0 then [] else Run(runs, n - 1) + runs[n - 1]
  }

  /** The component without the target or group under a key. */
  function Without(s: State, key: string): State {
    s.(own := s.own.(targets := DropKey(s.own.targets, key)), statics := DropGroup(s.statics, key), dynamics := DropGroup(s.dynamics, key))
  }

  class Node {
    var parent: Node?
    var pool: Pool?
    var own: Own
    var statics: seq<Group>
    var dynamics: seq<Group>

    var ownItems: Option<seq<ResolvedField>>
    var staticItems: Option<seq<ResolvedField>>
    var dynamicItems: Option<seq<ResolvedField>>
    var readItems: Option<seq<ResolvedField>>
    var plan: Option<Plan>

    /** The map last resolved, until something below changes. */
    ghost var mapped: Option<DeviceRanges>
    /** How far below the outermost component this one sits. */
    ghost var depth: nat

    ghost function Now(): State
      reads this
    {
      State(parent, pool, own, statics, dynamics, ownItems, staticItems, dynamicItems, readItems, plan, mapped, depth)
    }

    constructor (own: Own, parent: Node?, pool: Pool?, ghost depth: nat)
      ensures Now() == State(parent, pool, own, [], [], None, None, None, None, None, None, depth)
    {
      this.own, this.parent, this.pool, this.depth := own, parent, pool, depth;
      statics, dynamics := [], [];
      ownItems, staticItems, dynamicItems, readItems, plan, mapped := None, None, None, None, None, None;
    }

    /** Fill a cache (`cached_property`): this component's own targets. */
    method GetOwnItems(ghost nodes: set<Node>, ghost deepest: nat, ghost pool: Pool?)
      requires this in nodes && Coherent(At(nodes), deepest, pool)
      modifies this
      ensures Coherent(At(nodes), deepest, pool) && Filled(old(At(nodes)), At(nodes))
      ensures ownItems.Some?
    {
      hide Coherent, Right;
      ghost var was := At(nodes);
      if ownItems.None? {
        ownItems := Some(own.Items());
        OwnItemsFilled(was, At(nodes), this, deepest, pool);
      }
      NothingFilled(was);
    }

    /** The targets of every instance of a fixed-count group. */
    method GetStaticItems(ghost nodes: set<Node>, ghost deepest: nat, ghost pool: Pool?)
      requires this in nodes && Coherent(At(nodes), deepest, pool)
      modifies nodes
      ensures Coherent(At(nodes), deepest, pool) && Filled(old(At(nodes)), At(nodes))
      ensures staticItems.Some?
      decreases deepest - depth, 1
    {
      hide Coherent, Right, Filled, AllRead, Joined, Flat;
      ghost var was := At(nodes);
      NothingFilled(was);
      if staticItems.None? {
        BelowNow(nodes, this, Flat(statics), deepest, pool);
        var items := ReadEach(Flat(statics), nodes, deepest, pool, depth);
        ghost var mid := At(nodes);
        FilledHere(was, mid, this);
        staticItems := Some(items);
        StaticItemsFilled(mid, At(nodes), this, items, deepest, pool);
        FilledTwice(was, mid, At(nodes));
      }
    }

    /** The targets of every instance of a poll-time group. */
    method GetDynamicItems(ghost nodes: set<Node>, ghost deepest: nat, ghost pool: Pool?)
      requires this in nodes && Coherent(At(nodes), deepest, pool)
      modifies nodes
      ensures Coherent(At(nodes), deepest, pool) && Filled(old(At(nodes)), At(nodes))
      ensures dynamicItems.Some?
      decreases deepest - depth, 1
    {
      hide Coherent, Right, Filled, AllRead, Joined, Flat;
      ghost var was := At(nodes);
      NothingFilled(was);
      if dynamicItems.None? {
        BelowNow(nodes, this, Flat(dynamics), deepest, pool);
        var items := ReadEach(Flat(dynamics), nodes, deepest, pool, depth);
        ghost var mid := At(nodes);
        FilledHere(was, mid, this);
        dynamicItems := Some(items);
        DynamicItemsFilled(mid, At(nodes), this, items, deepest, pool);
        FilledTwice(was, mid, At(nodes));
      }
    }

    /** Fill the three caches the read targets are made of. */
    method GetParts(ghost nodes: set<Node>, ghost deepest: nat, ghost pool: Pool?)
      requires this in nodes && Coherent(At(nodes), deepest, pool)
      modifies nodes
      ensures Coherent(At(nodes), deepest, pool) && Filled(old(At(nodes)), At(nodes))
      ensures ownItems.Some? && staticItems.Some? && dynamicItems.Some?
      decreases deepest - depth, 2
    {
      hide Coherent, Right, Filled, AllRead, Joined, Flat;
      ghost var was := At(nodes);
      BelowNow(nodes, this, [], deepest, pool);
      GetOwnItems(nodes, deepest, pool);
      ghost var one := At(nodes);
      FilledHere(was, one, this);
      GetStaticItems(nodes, deepest, pool);
      ghost var two := At(nodes);
      FilledHere(one, two, this);
      FilledTwice(was, one, two);
      GetDynamicItems(nodes, deepest, pool);
      FilledHere(two, At(nodes), this);
      FilledTwice(was, two, At(nodes));
    }

    /** This component's read targets: its own and every instance's. */
    method GetReadItems(ghost nodes: set<Node>, ghost deepest: nat, ghost pool: Pool?) returns (items: seq<ResolvedField>)
      requires this in nodes && Coherent(At(nodes), deepest, pool)
      modifies nodes
      ensures Coherent(At(nodes), deepest, pool) && Filled(old(At(nodes)), At(nodes))
      ensures readItems == Some(items)
      decreases deepest - depth, 3
    {
      hide Coherent, Right, Filled, AllRead, Joined, Flat, FilledIn;
      ghost var was := At(nodes);
      NothingFilled(was);
      if readItems.None? {
        GetParts(nodes, deepest, pool);
        ghost var mid := At(nodes);
        readItems := Some(ownItems.value + staticItems.value + dynamicItems.value);
        ReadItemsFilled(mid, At(nodes), this, deepest, pool);
        FilledTwice(was, mid, At(nodes));
      }
      items := readItems.value;
    }

    /** This component's map at the addresses it reads, its instances' merged in (`_resolved_ranges`). */
    method ResolveRanges(ghost nodes: set<Node>, ghost deepest: nat, ghost pool: Pool?) returns (r: Result<DeviceRanges, GroupError>)
      requires this in nodes && Coherent(At(nodes), deepest, pool)
      modifies nodes
      ensures Coherent(At(nodes), deepest, pool) && Filled(old(At(nodes)), At(nodes))
      ensures r == MapOfNode(At(nodes), this, deepest, pool)
      ensures r.Ok? ==> mapped == Some(r.value)
      decreases deepest - depth, 2
    {
      hide Coherent, Right, Filled, AllRead, AllMapped, PartsOf, Flat, WithInstances, MapOfNode;
      ghost var was := At(nodes);
      NothingFilled(was);
      var instances := Flat(statics) + Flat(dynamics);
      BelowNow(nodes, this, instances, deepest, pool);
      var parts := [];
      ghost var mid := was;
      if instances == [] {
        r := Ok(own.ranges);
        NoParts(was);
      } else {
        GetOwnItems(nodes, deepest, pool);
        ghost var one := At(nodes);
        FilledHere(was, one, this);
        var each := MapEach(instances, nodes, deepest, pool, this, depth);
        mid := At(nodes);
        FilledHere(one, mid, this);
        FilledTwice(was, one, mid);
        MapFromParts(mid, this, each, deepest, pool);
        if each.Err? {
          return Err(each.error);
        }
        parts := each.value;
        r := WithInstances(Part(own.ranges, own.Items()), parts, own.maxGap, own.maxSpan);
      }
      if r.Ok? {
        WithNone(Part(own.ranges, own.Items()), own.maxGap, own.maxSpan);
        KeepMap(parts, r.value, nodes, deepest, pool);
        FilledTwice(was, mid, At(nodes));
      }
    }

    /** The map resolved is remembered until something below changes. */
    ghost method KeepMap(parts: seq<Part>, ranges: DeviceRanges, nodes: set<Node>, deepest: nat, pool: Pool?)
      requires this in nodes && Coherent(At(nodes), deepest, pool)
      requires AllRead(At(nodes), Now().Instances()) && AllMapped(At(nodes), Now().Instances()) && parts == PartsOf(At(nodes), Now().Instances())
      requires WithInstances(Part(own.ranges, own.Items()), parts, own.maxGap, own.maxSpan) == Ok(ranges)
      modifies this
      ensures Coherent(At(nodes), deepest, pool) && Filled(old(At(nodes)), At(nodes))
      ensures mapped == Some(ranges) && MapOfNode(At(nodes), this, deepest, pool) == Ok(ranges)
    {
      hide Coherent, Right, Filled, AllRead, AllMapped, PartsOf, Flat, WithInstances, MapOfNode, ItemsOf, Build;
      var was := At(nodes);
      mapped := Some(ranges);
      MapFilled(was, At(nodes), this, parts, ranges, deepest, pool);
      CachesAreCurrent(At(nodes), this, deepest, pool);
    }

    /** Build the read plan unless it is cached (the start of `_refresh`). */
    method EnsurePlan(ghost nodes: set<Node>, ghost deepest: nat, ghost pool: Pool?) returns (ok: bool)
      requires this in nodes && Coherent(At(nodes), deepest, pool)
      modifies nodes
      ensures Coherent(At(nodes), deepest, pool) && Filled(old(At(nodes)), At(nodes))
      ensures ok <==> CanPlan(At(nodes), this, deepest, pool)
      ensures ok ==> plan.Some?
    {
      hide Coherent, Right, Filled, FilledIn, Build, MapOfNode, ItemsOf;
      ghost var was := At(nodes);
      NothingFilled(was);
      if plan.Some? {
        CachesAreCurrent(was, this, deepest, pool);
        return true;
      }
      var items := GetReadItems(nodes, deepest, pool);
      ghost var one := At(nodes);
      var ranges := ResolveRanges(nodes, deepest, pool);
      ghost var mid := At(nodes);
      FilledHere(one, mid, this);
      FilledTwice(was, one, mid);
      CachesAreCurrent(mid, this, deepest, pool);
      ok := false;
      if ranges.Ok? {
        var built := Build(items, ranges.value, own.maxGap, own.maxSpan);
        if built.Ok? {
          KeepPlan(built.value, nodes, deepest, pool);
          FilledTwice(was, mid, At(nodes));
          ok := true;
        }
      }
    }

    method KeepPlan(built: Plan, ghost nodes: set<Node>, ghost deepest: nat, ghost pool: Pool?)
      requires this in nodes && Coherent(At(nodes), deepest, pool) && readItems.Some? && mapped.Some?
      requires Build(readItems.value, mapped.value, own.maxGap, own.maxSpan) == Ok(built)
      modifies this
      ensures Coherent(At(nodes), deepest, pool) && Filled(old(At(nodes)), At(nodes))
      ensures plan == Some(built) && CanPlan(At(nodes), this, deepest, pool)
    {
      hide Coherent, Right, Filled, Build, MapOfNode, ItemsOf;
      ghost var was := At(nodes);
      plan := Some(built);
      PlanFilled(was, At(nodes), this, built, deepest, pool);
      CachesAreCurrent(At(nodes), this, deepest, pool);
    }

    /** Drop the caches this component owns. */
    method DropOwn(ghost nodes: set<Node>, ghost deepest: nat, ghost top: Pool?)
      requires this in nodes && Tree(At(nodes), deepest, top) && RightBut(At(nodes), this)
      modifies this
      ensures Tree(At(nodes), deepest, top) && RightBut(At(nodes), parent) && SameLayouts(old(At(nodes)), At(nodes))
      ensures Now() == old(Now()).Bare() && Hangs(At(nodes), this, deepest, top)
    {
      hide Tree, RightBut, SameLayouts, Hangs, Right;
      ghost var was := At(nodes);
      ownItems, staticItems, dynamicItems, readItems, plan := None, None, None, None, None;
      mapped := None;
      assert Now() == was[this].Bare();
      assert At(nodes) == was[this := was[this].Bare()];
      Cleared(was, At(nodes), this, deepest, top);
    }

    /**
     Drop this component's caches and those of everything above it (`_invalidate_caches`).
     It fails exactly when the group's maps no longer fit together, which leaves the group as it was.
     */
    method Invalidate(ghost nodes: set<Node>, ghost deepest: nat, ghost top: Pool?) returns (ok: bool)
      requires this in nodes && Tree(At(nodes), deepest, top) && RightBut(At(nodes), this)
      modifies nodes, top
      ensures Coherent(At(nodes), deepest, top) && SameLayouts(old(At(nodes)), At(nodes))
      ensures ok <==> MapsFit(At(nodes), deepest, top)
      ensures top != null && ok ==> PoolRight(At(nodes), top.Now())
      ensures top != null && !ok ==> top.Now() == old(top.Now())
      decreases depth
    {
      hide Tree, RightBut, Filled, PoolRight, SameLayouts, Coherent, MapsFit;
      ghost var was := At(nodes);
      DropOwn(nodes, deepest, top);
      ghost var mid := At(nodes);
      if parent != null {
        ok := parent.Invalidate(nodes, deepest, top);
        SameTwice(was, mid, At(nodes));
      } else {
        RootCleared(mid, this, deepest, top);
        UnpooledFit(mid, deepest);
        ok := true;
        if pool != null {
          ok := pool.Invalidate(nodes, deepest);
          FilledSame(mid, At(nodes));
          SameTwice(was, mid, At(nodes));
        }
      }
    }

    /**
     Narrow a component to some targets, with its ranges reshaped (`restrict_fields`).
     It is refused on a component with groups, or for an unknown key.
     */
    method RestrictFields(keep: set<string>, reshaped: DeviceRanges, ghost nodes: set<Node>, ghost deepest: nat, ghost top: Pool?)
      returns (r: Outcome)
      requires this in nodes && Current(nodes, deepest, top)
      modifies nodes, top
      ensures Coherent(At(nodes), deepest, top) && (top != null && r != Conflicting ==> PoolRight(At(nodes), top.Now()))
      ensures r == Refused <==> old(statics) != [] || old(dynamics) != [] || !(keep <= Keys(old(own.targets)))
      ensures r == Refused ==> Now() == old(Now())
      ensures r != Refused ==>
        SameLayouts(old(At(nodes))[this := old(Now()).(own := old(own).(targets := Kept(old(own.targets), keep), ranges := reshaped))], At(nodes))
      ensures r != Refused ==> r == Judged(At(nodes), deepest, top)
    {
      hide Tree, RightBut, PoolRight, Kept, Keys, MapsFit;
      if statics != [] || dynamics != [] || !(keep <= Keys(own.targets)) {
        return Refused;
      }
      ghost var was := At(nodes);
      own := own.(targets := Kept(own.targets, keep), ranges := reshaped);
      Reshaped(was, At(nodes), this, deepest, top);
      assert At(nodes) == was[this := was[this].(own := own)];
      var ok := Invalidate(nodes, deepest, top);
      r := if ok then Done else Conflicting;
    }

    /** Take a target out (`ManualComponent.remove`). */
    method Remove(key: string, ghost nodes: set<Node>, ghost deepest: nat, ghost top: Pool?) returns (r: Outcome)
      requires this in nodes && Current(nodes, deepest, top)
      modifies nodes, top
      ensures Coherent(At(nodes), deepest, top) && (top != null && r != Conflicting ==> PoolRight(At(nodes), top.Now()))
      ensures SameLayouts(old(At(nodes))[this := Without(old(Now()), key)], At(nodes))
      ensures r == Judged(At(nodes), deepest, top)
    {
      hide Tree, RightBut, PoolRight, DropKey, DropGroup, Flat, MapsFit;
      ghost var was := At(nodes);
      own, statics, dynamics := own.(targets := DropKey(own.targets, key)), DropGroup(statics, key), DropGroup(dynamics, key);
      Removed(was, At(nodes), this, key, deepest, top);
      var ok := Invalidate(nodes, deepest, top);
      r := if ok then Done else Conflicting;
    }

    /**
     Add a target under a key, replacing any there is (`ManualComponent.add`). A group whose maps do not
     fit without the target that was there stops it halfway.
     */
    method Add(key: string, target: ResolvedField, ghost nodes: set<Node>, ghost deepest: nat, ghost top: Pool?) returns (r: Outcome)
      requires this in nodes && Current(nodes, deepest, top)
      modifies nodes, top
      ensures Coherent(At(nodes), deepest, top) && (top != null && r != Conflicting ==> PoolRight(At(nodes), top.Now()))
      ensures r == Judged(At(nodes), deepest, top)
      ensures var bare := Without(old(Now()), key);
        var fits := MapsFit(old(At(nodes))[this := bare], deepest, top);
        SameLayouts(old(At(nodes))[this := if fits then WithTarget(bare, key, target) else bare], At(nodes))
    {
      hide Coherent, PoolRight, Without, WithTarget, MapsFit, SameLayouts;
      ghost var was := At(nodes);
      ghost var bare := was[this := Without(Now(), key)];
      r := Remove(key, nodes, deepest, top);
      FitsByLayout(bare, At(nodes), deepest, top);
      if r != Done {
        return;
      }
      ghost var mid := At(nodes);
      r := Put(key, target, nodes, deepest, top);
      TargetAfter(bare, mid, At(nodes), this, key, target);
      assert bare[this := WithTarget(bare[this], key, target)] == was[this := WithTarget(bare[this], key, target)];
    }

    /** What `add` does once the key is free. */
    method Put(key: string, target: ResolvedField, ghost nodes: set<Node>, ghost deepest: nat, ghost top: Pool?) returns (r: Outcome)
      requires this in nodes && Current(nodes, deepest, top)
      modifies nodes, top
      ensures Coherent(At(nodes), deepest, top) && (top != null && r != Conflicting ==> PoolRight(At(nodes), top.Now()))
      ensures r == Judged(At(nodes), deepest, top)
      ensures SameLayouts(old(At(nodes))[this := WithTarget(old(Now()), key, target)], At(nodes))
    {
      hide Tree, RightBut, PoolRight, MapsFit, SameLayouts;
      ghost var was := At(nodes);
      own := own.(targets := own.targets + [(key, target)]);
      Reshaped(was, At(nodes), this, deepest, top);
      assert At(nodes) == was[this := WithTarget(was[this], key, target)];
      var ok := Invalidate(nodes, deepest, top);
      r := if ok then Done else Conflicting;
    }

    /** Keep the leading instances of a poll-time group and build more behind them. */
    method ResizeGroup(k: nat, keep: nat, added: Template, ghost nodes: set<Node>, ghost deepest: nat, ghost top: Pool?)
      returns (run: seq<Node>, ghost more: set<Node>, ghost deeper: nat)
      requires this in nodes && k < |dynamics| && Tree(At(nodes), deepest, top) && RightBut(At(nodes), this)
      modifies this
      ensures fresh(more) && deeper >= deepest && Tree(At(nodes + more), deeper, top) && RightBut(At(nodes + more), this)
      ensures Now() == old(Now()).(dynamics := Regrouped(old(dynamics), k, keep, run)) && |run| == |added.statics|
      ensures forall c :: c in run ==> c in more
    {
      hide Tree, RightBut, Flat;
      run, more, deeper := BuildMore(added, nodes, deepest, top);
      ghost var mid := At(nodes + more);
      dynamics := Regrouped(dynamics, k, keep, run);
      assert At(nodes + more) == mid[this := mid[this].(dynamics := dynamics)];
      Resizes(mid, At(nodes + more), this, k, keep, run, deeper, top);
    }

    /** The loop over poll-time groups. */
    method ResizeGroups(kept: seq<nat>, added: seq<Template>, ghost nodes: set<Node>, ghost deepest: nat, ghost top: Pool?)
      returns (placed: seq<seq<Node>>, ghost more: set<Node>, ghost deeper: nat)
      requires this in nodes && Tree(At(nodes), deepest, top) && RightBut(At(nodes), this) && |kept| == |added| == |dynamics|
      modifies this
      ensures fresh(more) && deeper >= deepest && Tree(At(nodes + more), deeper, top) && RightBut(At(nodes + more), this)
      ensures |placed| == |added| && forall k :: 0 <= k < |added| ==> |placed[k]| == |added[k].statics|
      ensures Now() == old(Now()).(dynamics := AllRegrouped(old(dynamics), kept, placed, |placed|))
    {
      hide Tree, RightBut, Flat, Regrouped;
      placed, more, deeper := [], {}, deepest;
      assert nodes + more == nodes;
      for k := 0 to |kept|
        invariant fresh(more) && deeper >= deepest && Tree(At(nodes + more), deeper, top) && RightBut(At(nodes + more), this)
        invariant |placed| == k && (forall j :: 0 <= j < k ==> |placed[j]| == |added[j].statics|)
        invariant |dynamics| == |kept|
        invariant Now() == old(Now()).(dynamics := AllRegrouped(old(dynamics), kept, placed, k))
      {
        var run, extra, deepest' := ResizeGroup(k, kept[k], added[k], nodes + more, deeper, top);
        assert nodes + more + extra == nodes + (more + extra);
        more, deeper := more + extra, deepest';
        PlacedMore(old(dynamics), kept, placed, run, k);
        placed := placed + [run];
      }
    }

    /** Plan the read of instances just added, under the component's map as it now is. */
    method PlanAdded(run: seq<Node>, ghost nodes: set<Node>, ghost deepest: nat, ghost top: Pool?) returns (ok: bool)
      requires this in nodes && Current(nodes, deepest, top) && forall c :: c in run ==> c in Now().Instances()
      modifies nodes
      ensures Current(nodes, deepest, top) && SameLayouts(old(At(nodes)), At(nodes))
      ensures forall c :: c in run ==> c in At(nodes)[this].Instances()
      ensures ok <==> CanRead(At(nodes), run, this, deepest, top)
    {
      hide Coherent, PoolRight, Filled, SameLayouts, Build, MapOfNode, ItemsOfRun, Flat, Joined, AllRead;
      ghost var was := At(nodes);
      BelowNow(nodes, this, run, deepest, top);
      var items := ReadEach(run, nodes, deepest, top, depth);
      ghost var read := At(nodes);
      FilledHere(was, read, this);
      var ranges := ResolveRanges(nodes, deepest, top);
      FilledHere(read, At(nodes), this);
      JoinedKept(read, At(nodes), run);
      RunIsCurrent(At(nodes), run, this, deepest, top);
      FilledTwice(was, read, At(nodes));
      FilledSame(was, At(nodes));
      if top != null { PoolKept(was, At(nodes), top.Now()); }
      ok := ranges.Ok? && Build(items, ranges.value, own.maxGap, own.maxSpan).Ok?;
    }

    /**
     Resize the poll-time groups after a read: some leading instances of each stay, others are
     built (`_refresh_repeating_groups`). If the tree changed its caches are dropped, and the read of
     the new instances is planned under the map of the tree as it now is.
     */
    method Resize(kept: seq<nat>, added: seq<Template>, ghost nodes: set<Node>, ghost deepest: nat, ghost top: Pool?)
      returns (r: Outcome, placed: seq<seq<Node>>, ghost more: set<Node>, ghost deeper: nat)
      requires this in nodes && Current(nodes, deepest, top) && |kept| == |added| == |dynamics|
      modifies nodes, top
      ensures fresh(more) && deeper >= deepest && Coherent(At(nodes + more), deeper, top)
      ensures top != null && r != Conflicting ==> PoolRight(At(nodes + more), top.Now())
      ensures |placed| == |added| && forall k :: 0 <= k < |added| ==> |placed[k]| == |added[k].statics|
      ensures Now().SameLayout(old(Now()).(dynamics := AllRegrouped(old(dynamics), kept, placed, |placed|)))
      ensures forall n {:trigger n.Now()} :: n in nodes && n != this ==> n.Now().SameLayout(old(n.Now()))
      ensures forall c :: c in Run(placed, |placed|) ==> c in Now().Instances()
      ensures r == (if !MapsFit(At(nodes + more), deeper, top) then Conflicting
                    else if Run(placed, |placed|) != [] && !CanRead(At(nodes + more), Run(placed, |placed|), this, deeper, top) then Unreadable
                    else Done)
    {
      hide Tree, RightBut, PoolRight, Flat, Regrouped, SameLayouts, MapsFit, CanRead, Run, AllRegrouped;
      assert nodes + {} == nodes;
      if SameSize(dynamics, kept, added) {
        placed := seq(|added|, k => []);
        NothingPlaced(dynamics, kept, added, placed, |placed|);
        NoRun(placed, |placed|);
        CurrentFits(nodes, deepest, top);
        return Done, placed, {}, deepest;
      }
      Loosened(At(nodes), this, deepest, top);
      placed, more, deeper := ResizeGroups(kept, added, nodes, deepest, top);
      PlacedAreInstances(old(dynamics), kept, placed, |placed|);
      ghost var mid := At(nodes + more);
      var ok := Invalidate(nodes + more, deeper, top);
      SameHere(mid, At(nodes + more), this);
      r := if ok then Done else Conflicting;
      forall m {:trigger m.Now()} | m in nodes && m != this ensures m.Now().SameLayout(old(m.Now())) {
        SameHere(mid, At(nodes + more), m);
      }
      var run := Run(placed, |placed|);
      if ok && run != [] {
        ghost var was := At(nodes + more);
        var readable := PlanAdded(run, nodes + more, deeper, top);
        SameHere(was, At(nodes + more), this);
        forall m {:trigger m.Now()} | m in nodes && m != this ensures m.Now().SameLayout(old(m.Now())) {
          SameHere(was, At(nodes + more), m);
        }
        FitsByLayout(was, At(nodes + more), deeper, top);
        r := if readable then Done else Unreadable;
      }
    }

    /** Add a repeating group that is placed when polled, replacing what is there; its count register is a target. */
    method AddPolled(key: string, count: ResolvedField, ghost nodes: set<Node>, ghost deepest: nat, ghost top: Pool?) returns (r: Outcome)
      requires this in nodes && Current(nodes, deepest, top)
      modifies nodes, top
      ensures Coherent(At(nodes), deepest, top) && (top != null && r != Conflicting ==> PoolRight(At(nodes), top.Now()))
      ensures r == Judged(At(nodes), deepest, top)
      ensures var bare := Without(old(Now()), key);
        var fits := MapsFit(old(At(nodes))[this := bare], deepest, top);
        SameLayouts(old(At(nodes))[this := if fits then WithGroup(bare, key, Some(count), []) else bare], At(nodes))
    {
      hide Coherent, PoolRight, Without, WithGroup, MapsFit, SameLayouts;
      ghost var was := At(nodes);
      ghost var bare := was[this := Without(Now(), key)];
      r := Remove(key, nodes, deepest, top);
      FitsByLayout(bare, At(nodes), deepest, top);
      if r != Done {
        return;
      }
      ghost var mid := At(nodes);
      r := PutPolled(key, count, nodes, deepest, top);
      PolledAfter(bare, mid, At(nodes), this, key, count);
      assert bare[this := WithGroup(bare[this], key, Some(count), [])] == was[this := WithGroup(bare[this], key, Some(count), [])];
    }

    method PutPolled(key: string, count: ResolvedField, ghost nodes: set<Node>, ghost deepest: nat, ghost top: Pool?) returns (r: Outcome)
      requires this in nodes && Current(nodes, deepest, top)
      modifies nodes, top
      ensures Coherent(At(nodes), deepest, top) && (top != null && r != Conflicting ==> PoolRight(At(nodes), top.Now()))
      ensures r == Judged(At(nodes), deepest, top)
      ensures SameLayouts(old(At(nodes))[this := WithGroup(old(Now()), key, Some(count), [])], At(nodes))
    {
      hide Tree, RightBut, PoolRight, Flat, MapsFit, SameLayouts;
      ghost var was := At(nodes);
      Loosened(was, this, deepest, top);
      own := own.(targets := own.targets + [(key, count)]);
      dynamics := dynamics + [Group(key, [])];
      assert At(nodes) == was[this := WithGroup(was[this], key, Some(count), [])];
      GroupAdded(was, At(nodes), this, key, Some(count), [], deepest, top);
      var ok := Invalidate(nodes, deepest, top);
      r := if ok then Done else Conflicting;
    }

    /** Build the instances of a fixed-count group and keep them under its key. */
    method BuildStatic(key: string, built: Template, ghost nodes: set<Node>, ghost deepest: nat, ghost top: Pool?)
      returns (run: seq<Node>, ghost more: set<Node>, ghost deeper: nat)
      requires this in nodes && Tree(At(nodes), deepest, top) && RightBut(At(nodes), this)
      modifies this
      ensures fresh(more) && deeper >= deepest && Tree(At(nodes + more), deeper, top) && RightBut(At(nodes + more), this)
      ensures Now() == WithGroup(old(Now()), key, None, run) && |run| == |built.statics|
    {
      hide Tree, RightBut, Flat;
      run, more, deeper := BuildMore(built, nodes, deepest, top);
      ghost var mid := At(nodes + more);
      statics := statics + [Group(key, run)];
      assert At(nodes + more) == mid[this := WithGroup(mid[this], key, None, run)];
      GroupAdded(mid, At(nodes + more), this, key, None, run, deeper, top);
    }

    /** Build instances of this component; every other cache stays right. */
    method BuildMore(built: Template, ghost nodes: set<Node>, ghost deepest: nat, ghost top: Pool?)
      returns (run: seq<Node>, ghost more: set<Node>, ghost deeper: nat)
      requires this in nodes && Tree(At(nodes), deepest, top) && RightBut(At(nodes), this)
      ensures fresh(more) && deeper >= deepest && Tree(At(nodes + more), deeper, top) && RightBut(At(nodes + more), this)
      ensures Hung(run, this, more) && |run| == |built.statics|
    {
      hide Tree, RightBut, Flat;
      ghost var was := At(nodes);
      run, more, deeper := BuildEach(built, this, nodes, deepest, top);
      ghost var mid := At(nodes + more);
      assert forall n :: n in was ==> mid[n] == was[n];
      MoreNodes(was, mid, this);
    }

    /** Add a repeating group of fixed count, replacing what is there. */
    method AddStatic(key: string, built: Template, ghost nodes: set<Node>, ghost deepest: nat, ghost top: Pool?)
      returns (r: Outcome, run: seq<Node>, ghost more: set<Node>, ghost deeper: nat)
      requires this in nodes && Current(nodes, deepest, top)
      modifies nodes, top
      ensures fresh(more) && deeper >= deepest && Coherent(At(nodes + more), deeper, top)
      ensures top != null && r != Conflicting ==> PoolRight(At(nodes + more), top.Now())
      ensures r == Judged(At(nodes + more), deeper, top)
      ensures var bare := Without(old(Now()), key);
        if MapsFit(old(At(nodes))[this := bare], deepest, top)
        then Now().SameLayout(WithGroup(bare, key, None, run)) && |run| == |built.statics|
        else Now().SameLayout(bare) && more == {}
      ensures forall n {:trigger n.Now()} :: n in nodes && n != this ==> n.Now().SameLayout(old(n.Now()))
    {
      hide Tree, RightBut, PoolRight, Without, SameLayouts, MapsFit;
      run, more, deeper := [], {}, deepest;
      assert nodes + more == nodes;
      ghost var bare := At(nodes)[this := Without(Now(), key)];
      r := Remove(key, nodes, deepest, top);
      FitsByLayout(bare, At(nodes), deepest, top);
      SameHere(bare, At(nodes), this);
      forall m {:trigger m.Now()} | m in nodes && m != this ensures m.Now().SameLayout(old(m.Now())) {
        SameHere(bare, At(nodes), m);
      }
      if r != Done {
        return;
      }
      Loosened(At(nodes), this, deepest, top);
      run, more, deeper := BuildStatic(key, built, nodes, deepest, top);
      ghost var mid := At(nodes + more);
      var ok := Invalidate(nodes + more, deeper, top);
      SameHere(mid, At(nodes + more), this);
      forall m {:trigger m.Now()} | m in nodes && m != this ensures m.Now().SameLayout(old(m.Now())) {
        SameHere(mid, At(nodes + more), m);
      }
      r := if ok then Done else Conflicting;
    }
  }

  /** A component to be built, and those of its fixed-count groups. */
  datatype Template = Template(own: Own, statics: seq<Template>)

  /** New components that hang from an old one, with nothing cached. */
  ghost predicate Hung(run: seq<Node>, parent: Node, more: set<Node>)
    reads more, parent
  {
    && (forall m :: m in more ==> m.Now() == m.Now().Bare())
    && (forall c :: c in run ==> c in more && c.parent == parent && parent.depth < c.depth)
  }

  /** Build one instance and its own fixed instances (`_build_instances`). The tree it joins does not change. */
  method BuildNode(t: Template, parent: Node, ghost nodes: set<Node>, ghost deepest: nat, ghost top: Pool?)
    returns (n: Node, ghost more: set<Node>, ghost deeper: nat)
    requires parent in nodes && Tree(At(nodes), deepest, top)
    ensures fresh(more) && deeper >= deepest && Tree(At(nodes + more), deeper, top)
    ensures forall m {:trigger m.Now()} :: m in nodes ==> m.Now() == old(m.Now())
    ensures Hung([n], parent, more) && n.own == t.own
    decreases t, 1
  {
    hide Tree, Flat, Hung;
    n, deeper := BuildBare(t.own, parent, nodes, deepest, top);
    var run, extra, deepest' := BuildEach(t, n, nodes + {n}, deeper, top);
    assert nodes + {n} + extra == nodes + ({n} + extra);
    more, deeper := {n} + extra, deepest';
    OnlyBare(extra, run, n);
    GiveStatics(n, run, nodes + more, deeper, top);
    HungAlone(n, parent, more);
  }

  lemma OnlyBare(more: set<Node>, run: seq<Node>, n: Node)
    requires Hung(run, n, more)
    ensures forall m {:trigger m.Now()} :: m in more ==> m.Now() == m.Now().Bare()
    ensures forall c :: c in run ==> c in more && c.parent == n && n.depth < c.depth
  {
  }

  lemma HungAlone(n: Node, parent: Node, more: set<Node>)
    requires n in more && n.parent == parent && parent.depth < n.depth
    requires forall m {:trigger m.Now()} :: m in more ==> m.Now() == m.Now().Bare()
    ensures Hung([n], parent, more)
  {
  }

  method BuildBare(own: Own, parent: Node, ghost nodes: set<Node>, ghost deepest: nat, ghost top: Pool?)
    returns (n: Node, ghost deeper: nat)
    requires parent in nodes && Tree(At(nodes), deepest, top)
    ensures fresh(n) && deeper >= deepest && Tree(At(nodes + {n}), deeper, top)
    ensures n.Now() == State(parent, null, own, [], [], None, None, None, None, None, None, parent.depth + 1)
  {
    hide Tree, Flat;
    n := new Node(own, parent, null, parent.depth + 1);
    deeper := if deepest > parent.depth then deepest else parent.depth + 1;
    assert At(nodes + {n}) == old(At(nodes))[n := n.Now()];
    Joins(old(At(nodes)), At(nodes + {n}), n, deepest, deeper, top);
  }

  /** Keep the instances of a new component's fixed-count groups. */
  method GiveStatics(n: Node, run: seq<Node>, ghost nodes: set<Node>, ghost deepest: nat, ghost top: Pool?)
    requires n in nodes && Tree(At(nodes), deepest, top) && n.statics == [] && n.dynamics == []
    requires forall c :: c in run ==> c in nodes && c.parent == n && n.depth < c.depth
    modifies n
    ensures Tree(At(nodes), deepest, top) && n.Now() == old(n.Now()).(statics := [Group("", run)])
  {
    hide Tree, Flat;
    ghost var was := At(nodes);
    n.statics := [Group("", run)];
    OneGroup("", run);
    assert At(nodes) == was[n := was[n].(statics := n.statics)];
    Takes(was, At(nodes), n, run, deepest, top);
  }

  /** Build the fixed instances of a template. */
  method BuildEach(t: Template, parent: Node, ghost nodes: set<Node>, ghost deepest: nat, ghost top: Pool?)
    returns (run: seq<Node>, ghost more: set<Node>, ghost deeper: nat)
    requires parent in nodes && Tree(At(nodes), deepest, top)
    ensures fresh(more) && deeper >= deepest && Tree(At(nodes + more), deeper, top)
    ensures forall m {:trigger m.Now()} :: m in nodes ==> m.Now() == old(m.Now())
    ensures Hung(run, parent, more) && |run| == |t.statics|
    decreases t, 0
  {
    hide Tree, SameLayouts;
    run, more, deeper := [], {}, deepest;
    assert nodes + more == nodes;
    for i := 0 to |t.statics|
      invariant fresh(more) && deeper >= deepest && Tree(At(nodes + more), deeper, top)
      invariant forall m {:trigger m.Now()} :: m in nodes ==> m.Now() == old(m.Now())
      invariant Hung(run, parent, more) && |run| == i
    {
      assert parent.Now() == old(parent.Now());
      var one, extra, deepest' := BuildNode(t.statics[i], parent, nodes + more, deeper, top);
      assert nodes + more + extra == nodes + (more + extra);
      more, deeper := more + extra, deepest';
      run := run + [one];
    }
  }

  /** The read targets of some components in turn. */
  method ReadEach(run: seq<Node>, ghost nodes: set<Node>, ghost deepest: nat, ghost pool: Pool?, ghost above: nat) returns (items: seq<ResolvedField>)
    requires Coherent(At(nodes), deepest, pool) && above <= deepest
    requires forall c :: c in run ==> c in nodes && above < c.depth <= deepest
    modifies nodes
    ensures Coherent(At(nodes), deepest, pool) && Filled(old(At(nodes)), At(nodes))
    ensures AllRead(At(nodes), run) && items == Joined(At(nodes), run)
    decreases deepest - above, 0
  {
    hide Coherent;
    items := [];
    ghost var was := At(nodes);
    NothingFilled(was);
    for i := 0 to |run|
      invariant Coherent(At(nodes), deepest, pool) && Filled(was, At(nodes))
      invariant AllRead(At(nodes), run[..i]) && items == Joined(At(nodes), run[..i])
    {
      ghost var before := At(nodes);
      assert FilledIn(was[run[i]], before[run[i]]);
      hide Filled, Joined;
      var more := run[i].GetReadItems(nodes, deepest, pool);
      items := items + more;
      JoinedKept(before, At(nodes), run[..i]);
      FilledTwice(was, before, At(nodes));
      JoinedMore(At(nodes), run, i);
    }
    assert run[..|run|] == run;
  }

  lemma JoinedMore(h: Heap, run: seq<Node>, i: nat)
    requires i < |run| && AllRead(h, run[..i]) && run[i] in h && h[run[i]].readItems.Some?
    ensures AllRead(h, run[..i + 1]) && Joined(h, run[..i + 1]) == Joined(h, run[..i]) + h[run[i]].readItems.value
  {
    assert run[..i + 1][..i] == run[..i];
  }

  /** The maps and read targets of some components in turn. */
  method MapEach(run: seq<Node>, ghost nodes: set<Node>, ghost deepest: nat, ghost pool: Pool?, ghost of: Node, ghost above: nat)
    returns (r: Result<seq<Part>, GroupError>)
    requires Coherent(At(nodes), deepest, pool) && of in nodes && above == of.depth <= deepest
    requires forall c :: c in run ==> c in nodes && above < c.depth <= deepest && c in of.Now().Instances()
    modifies nodes
    ensures Coherent(At(nodes), deepest, pool) && Filled(old(At(nodes)), At(nodes))
    ensures forall c :: c in run ==> c in At(nodes)[of].Instances()
    ensures r == PartsOfRun(At(nodes), run, of, deepest, pool)
    ensures r.Ok? ==> AllRead(At(nodes), run) && AllMapped(At(nodes), run) && r.value == PartsOf(At(nodes), run)
    decreases deepest - above, 0
  {
    hide Coherent, Filled, AllRead, AllMapped, PartsOf, MapOfNode, PartsOfRun, Flat;
    var parts: seq<Part> := [];
    ghost var was := At(nodes);
    NothingFilled(was);
    NoParts(was);
    for i := 0 to |run|
      invariant Coherent(At(nodes), deepest, pool) && Filled(was, At(nodes))
      invariant AllRead(At(nodes), run[..i]) && AllMapped(At(nodes), run[..i]) && parts == PartsOf(At(nodes), run[..i])
    {
      ghost var before := At(nodes);
      FilledHere(was, before, run[i]);
      var map_ := run[i].ResolveRanges(nodes, deepest, pool);
      ghost var mid := At(nodes);
      FilledTwice(was, before, mid);
      FilledHere(was, mid, of);
      if map_.Err? {
        PartsKept(before, mid, run[..i]);
        RunIsCurrent(mid, run[..i], of, deepest, pool);
        PartsFailAt(mid, run, i, of, deepest, pool);
        return Err(map_.error);
      }
      FilledHere(was, mid, run[i]);
      var items := run[i].GetReadItems(nodes, deepest, pool);
      FilledHere(mid, At(nodes), run[i]);
      FilledTwice(before, mid, At(nodes));
      FilledTwice(was, mid, At(nodes));
      PartsKept(before, At(nodes), run[..i]);
      PartsStep(At(nodes), run, i);
      parts := parts + [Part(map_.value, items)];
    }
    assert run[..|run|] == run;
    FilledHere(was, At(nodes), of);
    RunIsCurrent(At(nodes), run, of, deepest, pool);
    r := Ok(parts);
  }

  /** A group's fields at one moment. */
  datatype PoolState = PoolState(members: seq<Node>, maxSpan: int, ranges: DeviceRanges, plan: Option<Plan>)

  class Pool {
    const members: seq<Node>
    const maxSpan: int
    var ranges: DeviceRanges
    var plan: Option<Plan>

    ghost function Now(): PoolState
      reads this
    {
      PoolState(members, maxSpan, ranges, plan)
    }

    constructor (members: seq<Node>, maxSpan: int)
      ensures Now() == PoolState(members, maxSpan, NO_MAPS, None)
    {
      this.members, this.maxSpan, ranges, plan := members, maxSpan, NO_MAPS, None;
    }

    /** Merge the members' maps anew, and drop the plan; nothing changes exactly when they no longer fit together. */
    method Invalidate(ghost nodes: set<Node>, ghost deepest: nat) returns (ok: bool)
      requires Coherent(At(nodes), deepest, this)
      modifies this, nodes
      ensures Coherent(At(nodes), deepest, this) && Filled(old(At(nodes)), At(nodes))
      ensures ok <==> MapsFit(At(nodes), deepest, this)
      ensures ok ==> PoolRight(At(nodes), Now())
      ensures !ok ==> Now() == old(Now())
    {
      hide Coherent, Filled, FilledIn, GroupRanges, AllRead, AllMapped, PoolRight, MembersOf, MembersNow, MapsFit;
      MembersFirst(At(nodes), deepest, this);
      var parts := MapMembers(members, nodes, deepest, this);
      FitIs(At(nodes), deepest, this, parts);
      ok := false;
      if parts.Ok? {
        var merged := RangesBySpace(parts.value);
        if merged.Ok? {
          ranges, plan := merged.value, None;
          FreshlyMerged(At(nodes), Now());
          ok := true;
        }
      }
    }

    /** Build the pooled plan unless it is cached. */
    method EnsurePlan(ghost nodes: set<Node>, ghost deepest: nat) returns (ok: bool)
      requires Coherent(At(nodes), deepest, this) && PoolRight(At(nodes), Now())
      modifies this, nodes
      ensures Coherent(At(nodes), deepest, this) && Filled(old(At(nodes)), At(nodes))
      ensures PoolRight(At(nodes), Now()) && ranges == old(ranges)
      ensures ok <==> CanPool(At(nodes), Now(), deepest, this)
      ensures ok ==> plan.Some?
    {
      hide Coherent, Filled, GroupRanges, AllRead, AllMapped, Pooled, MembersNow;
      ghost var was := At(nodes);
      NothingFilled(was);
      if plan.Some? {
        GroupIsCurrent(was, Now(), deepest, this);
        return true;
      }
      MembersFirst(was, deepest, this);
      var parts := MapMembers(members, nodes, deepest, this);
      PoolKept(was, At(nodes), Now());
      ok := false;
      if parts.Ok? {
        var built := Pooled(parts.value, ranges, maxSpan);
        if built.Ok? {
          plan := Some(built.value);
          ok := true;
        }
      }
    }
  }

  /** What a group needs of its members, read off each in turn. */
  method MapMembers(run: seq<Node>, ghost nodes: set<Node>, ghost deepest: nat, ghost pool: Pool?) returns (r: Result<seq<Member>, GroupError>)
    requires Coherent(At(nodes), deepest, pool) && forall m :: m in run ==> m in nodes
    modifies nodes
    ensures Coherent(At(nodes), deepest, pool) && Filled(old(At(nodes)), At(nodes))
    ensures r.Ok? ==> AllRead(At(nodes), run) && AllMapped(At(nodes), run) && r.value == MembersOf(At(nodes), run)
    ensures r == MembersNow(At(nodes), run, deepest, pool)
  {
    hide Coherent, Filled, AllRead, AllMapped, MembersOf, MembersNow, MapOfNode;
    var members: seq<Member> := [];
    ghost var was := At(nodes);
    NothingFilled(was);
    NoMembers(was);
    for i := 0 to |run|
      invariant Coherent(At(nodes), deepest, pool) && Filled(was, At(nodes))
      invariant AllRead(At(nodes), run[..i]) && AllMapped(At(nodes), run[..i]) && members == MembersOf(At(nodes), run[..i])
    {
      ghost var before := At(nodes);
      var map_ := run[i].ResolveRanges(nodes, deepest, pool);
      ghost var mid := At(nodes);
      FilledTwice(was, before, mid);
      if map_.Err? {
        MembersKept(before, mid, run[..i]);
        MembersAreCurrent(mid, run[..i], deepest, pool);
        MembersFailAt(mid, run, i, deepest, pool);
        return Err(map_.error);
      }
      var items := run[i].GetReadItems(nodes, deepest, pool);
      FilledHere(mid, At(nodes), run[i]);
      FilledTwice(before, mid, At(nodes));
      FilledTwice(was, mid, At(nodes));
      MembersKept(before, At(nodes), run[..i]);
      MembersStep(At(nodes), run, i);
      members := members + [Member(map_.value, items, run[i].own.maxGap, run[i].own.maxSpan)];
    }
    assert run[..|run|] == run;
    MembersAreCurrent(At(nodes), run, deepest, pool);
    r := Ok(members);
  }

  /** Every component of a tree, or of all the trees of a group, at one moment. */
  type Heap = map<Node, State>

  ghost function At(nodes: set<Node>): Heap
    reads nodes
  {
    map n | n in nodes :: n.Now()
  }

  // ----- what a filled cache must hold -----

  ghost predicate AllRead(h: Heap, run: seq<Node>) {
    forall n :: n in run ==> n in h && h[n].readItems.Some?
  }

  ghost predicate AllMapped(h: Heap, run: seq<Node>) {
    forall n :: n in run ==> n in h && h[n].mapped.Some?
  }

  /** The read targets of some components, one after the other. */
  ghost function Joined(h: Heap, run: seq<Node>): seq<ResolvedField>
    requires AllRead(h, run)
  {
    if run == [] then [] else Joined(h, run[..|run| - 1]) + h[run[|run| - 1]].readItems.value
  }

  ghost function PartsOf(h: Heap, run: seq<Node>): (parts: seq<Part>)
    requires AllRead(h, run) && AllMapped(h, run)
    ensures |parts| == |run|
  {
    if run == [] then [] else PartsOf(h, run[..|run| - 1]) + [Part(h[run[|run| - 1]].mapped.value, h[run[|run| - 1]].readItems.value)]
  }

  /** Each cache that is filled agrees with the component and with its instances' caches, which are filled too. */
  ghost predicate Right(h: Heap, s: State) {
    && (s.ownItems.Some? ==> s.ownItems.value == s.own.Items())
    && (s.staticItems.Some? ==> AllRead(h, Flat(s.statics)) && s.staticItems.value == Joined(h, Flat(s.statics)))
    && (s.dynamicItems.Some? ==> AllRead(h, Flat(s.dynamics)) && s.dynamicItems.value == Joined(h, Flat(s.dynamics)))
    && (s.readItems.Some? ==> s.ownItems.Some? && s.staticItems.Some? && s.dynamicItems.Some? &&
                              s.readItems.value == s.ownItems.value + s.staticItems.value + s.dynamicItems.value)
    && (s.mapped.Some? ==> AllRead(h, s.Instances()) && AllMapped(h, s.Instances()) && MapRight(h, s))
    && (s.plan.Some? ==> s.readItems.Some? && s.mapped.Some? && Build(s.readItems.value, s.mapped.value, s.own.maxGap, s.own.maxSpan) == Ok(s.plan.value))
  }

  ghost predicate MapRight(h: Heap, s: State)
    requires s.mapped.Some? && AllRead(h, s.Instances()) && AllMapped(h, s.Instances())
  {
    WithInstances(Part(s.own.ranges, s.own.Items()), PartsOf(h, s.Instances()), s.own.maxGap, s.own.maxSpan) == Ok(s.mapped.value)
  }

  // ----- the tree -----

  /** A component hangs below its parent, its instances below it, and only an outermost one is pooled. */
  ghost predicate Hangs(h: Heap, n: Node, deepest: nat, pool: Pool?)
    requires n in h
  {
    var s := h[n];
    && s.depth <= deepest
    && (if s.parent == null then s.pool == pool else s.pool == null && s.parent in h && h[s.parent].depth < s.depth)
    && (forall c :: c in s.Instances() ==> c in h && h[c].parent == n && s.depth < h[c].depth)
  }

  ghost predicate Tree(h: Heap, deepest: nat, pool: Pool?) {
    && (forall n :: n in h ==> Hangs(h, n, deepest, pool))
    && (pool != null ==> forall m :: m in pool.members ==> m in h && h[m].parent == null)
  }

  /** Every component's caches are right, but for one whose layout was just changed. */
  ghost predicate RightBut(h: Heap, changed: Node?) {
    forall n :: n in h && n != changed ==> Right(h, h[n])
  }

  ghost predicate Coherent(h: Heap, deepest: nat, pool: Pool?) {
    Tree(h, deepest, pool) && RightBut(h, null)
  }

  /** Caches only filled in: whatever was cached still is, and the layout is the same. */
  ghost predicate Filled(was: Heap, now: Heap) {
    was.Keys == now.Keys && forall n :: n in was ==> FilledIn(was[n], now[n])
  }

  ghost predicate FilledIn(was: State, now: State) {
    && now.SameLayout(was)
    && (was.ownItems.Some? ==> now.ownItems == was.ownItems)
    && (was.staticItems.Some? ==> now.staticItems == was.staticItems)
    && (was.dynamicItems.Some? ==> now.dynamicItems == was.dynamicItems)
    && (was.readItems.Some? ==> now.readItems == was.readItems)
    && (was.mapped.Some? ==> now.mapped == was.mapped)
    && (was.plan.Some? ==> now.plan == was.plan)
  }

  // ----- filling a cache keeps the others right -----

  lemma {:induction false} JoinedKept(was: Heap, now: Heap, run: seq<Node>)
    requires AllRead(was, run) && Filled(was, now)
    ensures AllRead(now, run) && Joined(now, run) == Joined(was, run)
    decreases |run|
  {
    if run != [] {
      JoinedKept(was, now, run[..|run| - 1]);
      assert FilledIn(was[run[|run| - 1]], now[run[|run| - 1]]);
    }
    forall n | n in run ensures n in now && now[n].readItems.Some? { assert FilledIn(was[n], now[n]); }
  }

  lemma {:induction false} PartsKept(was: Heap, now: Heap, run: seq<Node>)
    requires AllRead(was, run) && AllMapped(was, run) && Filled(was, now)
    ensures AllRead(now, run) && AllMapped(now, run) && PartsOf(now, run) == PartsOf(was, run)
    decreases |run|
  {
    if run != [] {
      PartsKept(was, now, run[..|run| - 1]);
      assert FilledIn(was[run[|run| - 1]], now[run[|run| - 1]]);
    }
    forall n | n in run ensures n in now && now[n].readItems.Some? && now[n].mapped.Some? { assert FilledIn(was[n], now[n]); }
  }

  lemma StillRight(was: Heap, now: Heap, s: State)
    requires Filled(was, now) && Right(was, s)
    ensures Right(now, s)
  {
    hide Flat, WithInstances, Build;
    if s.staticItems.Some? { JoinedKept(was, now, Flat(s.statics)); }
    if s.dynamicItems.Some? { JoinedKept(was, now, Flat(s.dynamics)); }
    if s.mapped.Some? { PartsKept(was, now, s.Instances()); }
  }

  lemma StillTree(was: Heap, now: Heap, deepest: nat, pool: Pool?)
    requires Tree(was, deepest, pool) && Filled(was, now)
    ensures Tree(now, deepest, pool)
  {
    forall n | n in now ensures Hangs(now, n, deepest, pool) {
      assert Hangs(was, n, deepest, pool) && FilledIn(was[n], now[n]);
      assert was[n].parent != null ==> FilledIn(was[was[n].parent], now[now[n].parent]);
      forall c | c in now[n].Instances() ensures c in now && now[c].parent == n && now[n].depth < now[c].depth {
        assert FilledIn(was[c], now[c]);
      }
    }
    if pool != null {
      forall m | m in pool.members ensures m in now && now[m].parent == null { assert FilledIn(was[m], now[m]); }
    }
  }

  /** One component filled some of its caches, rightly. */
  lemma OneFilled(was: Heap, now: Heap, one: Node, s: State, deepest: nat, pool: Pool?)
    requires Coherent(was, deepest, pool) && one in was && now == was[one := s] && FilledIn(was[one], s) && Right(was, s)
    ensures Coherent(now, deepest, pool) && Filled(was, now)
  {
    hide Right, Tree;
    assert Filled(was, now);
    StillTree(was, now, deepest, pool);
    forall m | m in now ensures Right(now, now[m]) {
      StillRight(was, now, now[m]);
    }
  }

  lemma NothingFilled(was: Heap)
    ensures Filled(was, was)
  {
  }

  lemma FilledHere(was: Heap, now: Heap, n: Node)
    requires Filled(was, now) && n in was
    ensures n in now && FilledIn(was[n], now[n])
  {
  }

  lemma FilledTwice(a: Heap, b: Heap, c: Heap)
    requires Filled(a, b) && Filled(b, c)
    ensures Filled(a, c)
  {
    forall n | n in a ensures FilledIn(a[n], c[n]) {
      assert FilledIn(a[n], b[n]) && FilledIn(b[n], c[n]);
    }
  }

  lemma BelowThis(h: Heap, n: Node, deepest: nat, pool: Pool?)
    requires n in h && Coherent(h, deepest, pool)
    ensures h[n].depth <= deepest
    ensures forall c :: c in h[n].Instances() ==> c in h && h[n].depth < h[c].depth <= deepest
  {
    hide RightBut, Flat;
    assert Hangs(h, n, deepest, pool);
    forall c | c in h[n].Instances() ensures c in h && h[c].depth <= deepest {
      assert Hangs(h, c, deepest, pool);
    }
  }

  /** The same of the nodes themselves. */
  lemma BelowNow(nodes: set<Node>, n: Node, run: seq<Node>, deepest: nat, pool: Pool?)
    requires n in nodes && Coherent(At(nodes), deepest, pool)
    requires run == Flat(n.statics) || run == Flat(n.dynamics) || forall c :: c in run ==> c in n.Now().Instances()
    ensures n.depth <= deepest
    ensures forall c :: c in run ==> c in nodes && n.depth < c.depth <= deepest && c in n.Now().Instances()
  {
    hide Coherent, Flat;
    var h := At(nodes);
    BelowThis(h, n, deepest, pool);
    forall c | c in run ensures c in nodes && n.depth < c.depth <= deepest && c in n.Now().Instances() {
      assert c in h[n].Instances();
    }
  }

  lemma OwnItemsFilled(was: Heap, now: Heap, n: Node, deepest: nat, pool: Pool?)
    requires Coherent(was, deepest, pool) && n in was && was[n].ownItems.None?
    requires now == was[n := was[n].(ownItems := Some(was[n].own.Items()))]
    ensures Coherent(now, deepest, pool) && Filled(was, now)
  {
    hide Tree, Build, WithInstances, Flat;
    assert Right(was, was[n]);
    OneFilled(was, now, n, was[n].(ownItems := Some(was[n].own.Items())), deepest, pool);
  }

  lemma StaticItemsFilled(was: Heap, now: Heap, n: Node, items: seq<ResolvedField>, deepest: nat, pool: Pool?)
    requires Coherent(was, deepest, pool) && n in was
    requires AllRead(was, Flat(was[n].statics)) && items == Joined(was, Flat(was[n].statics))
    requires now == was[n := was[n].(staticItems := Some(items))]
    ensures Coherent(now, deepest, pool) && Filled(was, now)
  {
    hide Tree, Build, WithInstances, Flat;
    assert Right(was, was[n]);
    OneFilled(was, now, n, was[n].(staticItems := Some(items)), deepest, pool);
  }

  lemma DynamicItemsFilled(was: Heap, now: Heap, n: Node, items: seq<ResolvedField>, deepest: nat, pool: Pool?)
    requires Coherent(was, deepest, pool) && n in was
    requires AllRead(was, Flat(was[n].dynamics)) && items == Joined(was, Flat(was[n].dynamics))
    requires now == was[n := was[n].(dynamicItems := Some(items))]
    ensures Coherent(now, deepest, pool) && Filled(was, now)
  {
    hide Tree, Build, WithInstances, Flat;
    assert Right(was, was[n]);
    OneFilled(was, now, n, was[n].(dynamicItems := Some(items)), deepest, pool);
  }

  lemma ReadItemsFilled(was: Heap, now: Heap, n: Node, deepest: nat, pool: Pool?)
    requires Coherent(was, deepest, pool) && n in was
    requires was[n].ownItems.Some? && was[n].staticItems.Some? && was[n].dynamicItems.Some?
    requires now == was[n := was[n].(readItems := Some(was[n].ownItems.value + was[n].staticItems.value + was[n].dynamicItems.value))]
    ensures Coherent(now, deepest, pool) && Filled(was, now)
  {
    hide Tree, Build, WithInstances, Flat;
    assert Right(was, was[n]);
    OneFilled(was, now, n, now[n], deepest, pool);
  }

  lemma NoParts(h: Heap)
    ensures AllRead(h, []) && AllMapped(h, []) && PartsOf(h, []) == []
  {
  }

  lemma PartsStep(h: Heap, run: seq<Node>, i: nat)
    requires i < |run| && AllRead(h, run[..i]) && AllMapped(h, run[..i])
    requires run[i] in h && h[run[i]].readItems.Some? && h[run[i]].mapped.Some?
    ensures AllRead(h, run[..i + 1]) && AllMapped(h, run[..i + 1])
    ensures PartsOf(h, run[..i + 1]) == PartsOf(h, run[..i]) + [Part(h[run[i]].mapped.value, h[run[i]].readItems.value)]
  {
    assert run[..i + 1] == run[..i] + [run[i]];
    assert run[..i + 1][..i] == run[..i];
  }

  lemma WithNone(own: Part, maxGap: int, maxSpan: int)
    ensures WithInstances(own, [], maxGap, maxSpan) == Ok(own.ranges)
  {
  }

  lemma MapFilled(was: Heap, now: Heap, n: Node, parts: seq<Part>, ranges: DeviceRanges, deepest: nat, pool: Pool?)
    requires Coherent(was, deepest, pool) && n in was
    requires AllRead(was, was[n].Instances()) && AllMapped(was, was[n].Instances()) && parts == PartsOf(was, was[n].Instances())
    requires WithInstances(Part(was[n].own.ranges, was[n].own.Items()), parts, was[n].own.maxGap, was[n].own.maxSpan) == Ok(ranges)
    requires now == was[n := was[n].(mapped := Some(ranges))]
    ensures Coherent(now, deepest, pool) && Filled(was, now)
  {
    hide Tree, Build, WithInstances, Flat;
    assert Right(was, was[n]);
    OneFilled(was, now, n, now[n], deepest, pool);
  }

  lemma PlanFilled(was: Heap, now: Heap, n: Node, plan: Plan, deepest: nat, pool: Pool?)
    requires Coherent(was, deepest, pool) && n in was && was[n].readItems.Some? && was[n].mapped.Some?
    requires Build(was[n].readItems.value, was[n].mapped.value, was[n].own.maxGap, was[n].own.maxSpan) == Ok(plan)
    requires now == was[n := was[n].(plan := Some(plan))]
    ensures Coherent(now, deepest, pool) && Filled(was, now)
  {
    hide Tree, Build, WithInstances, Flat;
    assert Right(was, was[n]);
    OneFilled(was, now, n, now[n], deepest, pool);
  }

  // ----- groups -----

  ghost function MembersOf(h: Heap, run: seq<Node>): (members: seq<Member>)
    requires AllRead(h, run) && AllMapped(h, run)
    ensures |members| == |run|
  {
    if run == [] then []
    else
      var last := h[run[|run| - 1]];
      MembersOf(h, run[..|run| - 1]) + [Member(last.mapped.value, last.readItems.value, last.own.maxGap, last.own.maxSpan)]
  }

  /** A group's merged ranges are those of its members as they are, and so is its plan if it has one. */
  ghost predicate PoolRight(h: Heap, p: PoolState) {
    && AllRead(h, p.members) && AllMapped(h, p.members)
    && GroupRanges(MembersOf(h, p.members)) == Ok(p.ranges)
    && (p.plan.Some? ==> Pooled(MembersOf(h, p.members), p.ranges, p.maxSpan) == Ok(p.plan.value))
  }

  lemma FreshlyMerged(h: Heap, p: PoolState)
    requires AllRead(h, p.members) && AllMapped(h, p.members) && GroupRanges(MembersOf(h, p.members)) == Ok(p.ranges) && p.plan.None?
    ensures PoolRight(h, p)
  {
  }

  lemma NoMembers(h: Heap)
    ensures AllRead(h, []) && AllMapped(h, []) && MembersOf(h, []) == []
  {
  }

  lemma MembersStep(h: Heap, run: seq<Node>, i: nat)
    requires i < |run| && AllRead(h, run[..i]) && AllMapped(h, run[..i])
    requires run[i] in h && h[run[i]].readItems.Some? && h[run[i]].mapped.Some?
    ensures AllRead(h, run[..i + 1]) && AllMapped(h, run[..i + 1])
    ensures var s := h[run[i]];
      MembersOf(h, run[..i + 1]) == MembersOf(h, run[..i]) + [Member(s.mapped.value, s.readItems.value, s.own.maxGap, s.own.maxSpan)]
  {
    assert run[..i + 1] == run[..i] + [run[i]];
    assert run[..i + 1][..i] == run[..i];
  }

  lemma {:induction false} MembersKept(was: Heap, now: Heap, run: seq<Node>)
    requires AllRead(was, run) && AllMapped(was, run) && Filled(was, now)
    ensures AllRead(now, run) && AllMapped(now, run) && MembersOf(now, run) == MembersOf(was, run)
    decreases |run|
  {
    if run != [] {
      MembersKept(was, now, run[..|run| - 1]);
      assert FilledIn(was[run[|run| - 1]], now[run[|run| - 1]]);
    }
    forall n | n in run ensures n in now && now[n].readItems.Some? && now[n].mapped.Some? { assert FilledIn(was[n], now[n]); }
  }

  lemma PoolKept(was: Heap, now: Heap, p: PoolState)
    requires PoolRight(was, p) && Filled(was, now)
    ensures PoolRight(now, p)
  {
    hide GroupRanges, Pooled;
    MembersKept(was, now, p.members);
  }

  lemma MembersFirst(h: Heap, deepest: nat, pool: Pool)
    requires Coherent(h, deepest, pool)
    ensures forall m :: m in pool.members ==> m in h
  {
  }

  // ----- dropping caches -----

  ghost predicate SameLayouts(was: Heap, now: Heap) {
    was.Keys == now.Keys && forall n :: n in was ==> now[n].SameLayout(was[n])
  }

  lemma SameTwice(a: Heap, b: Heap, c: Heap)
    requires SameLayouts(a, b) && SameLayouts(b, c)
    ensures SameLayouts(a, c)
  {
  }

  lemma TargetAfter(a: Heap, b: Heap, c: Heap, n: Node, key: string, target: ResolvedField)
    requires n in a && SameLayouts(a, b) && SameLayouts(b[n := WithTarget(b[n], key, target)], c)
    ensures SameLayouts(a[n := WithTarget(a[n], key, target)], c)
  {
  }

  lemma PolledAfter(a: Heap, b: Heap, c: Heap, n: Node, key: string, count: ResolvedField)
    requires n in a && SameLayouts(a, b) && SameLayouts(b[n := WithGroup(b[n], key, Some(count), [])], c)
    ensures SameLayouts(a[n := WithGroup(a[n], key, Some(count), [])], c)
  {
  }

  lemma FilledSame(was: Heap, now: Heap)
    requires Filled(was, now)
    ensures SameLayouts(was, now)
  {
    forall n | n in was ensures now[n].SameLayout(was[n]) { assert FilledIn(was[n], now[n]); }
  }

  lemma HangsHere(h: Heap, n: Node, deepest: nat, pool: Pool?)
    requires Tree(h, deepest, pool) && n in h
    ensures Hangs(h, n, deepest, pool)
  {
  }

  lemma {:induction false} JoinedApart(was: Heap, now: Heap, one: Node, run: seq<Node>)
    requires AllRead(was, run) && one !in run && one in was && one in now && now == was[one := now[one]]
    ensures AllRead(now, run) && Joined(now, run) == Joined(was, run)
    decreases |run|
  {
    if run != [] { JoinedApart(was, now, one, run[..|run| - 1]); }
  }

  lemma {:induction false} PartsApart(was: Heap, now: Heap, one: Node, run: seq<Node>)
    requires AllRead(was, run) && AllMapped(was, run) && one !in run && one in was && one in now && now == was[one := now[one]]
    ensures AllRead(now, run) && AllMapped(now, run) && PartsOf(now, run) == PartsOf(was, run)
    decreases |run|
  {
    if run != [] { PartsApart(was, now, one, run[..|run| - 1]); }
  }

  /** A component that has no part in another's layout cannot make its caches wrong. */
  lemma RightApart(was: Heap, now: Heap, one: Node, s: State)
    requires Right(was, s) && one !in s.Instances() && one in was && one in now && now == was[one := now[one]]
    ensures Right(now, s)
  {
    hide Flat, WithInstances, Build;
    if s.staticItems.Some? { JoinedApart(was, now, one, Flat(s.statics)); }
    if s.dynamicItems.Some? { JoinedApart(was, now, one, Flat(s.dynamics)); }
    if s.mapped.Some? { PartsApart(was, now, one, s.Instances()); }
  }

  /** With its caches dropped a component is right; only what it hangs from may not be. */
  lemma Cleared(was: Heap, now: Heap, n: Node, deepest: nat, pool: Pool?)
    requires n in was && Tree(was, deepest, pool) && RightBut(was, n) && now == was[n := was[n].Bare()]
    ensures Tree(now, deepest, pool) && SameLayouts(was, now) && RightBut(now, now[n].parent)
    ensures Hangs(now, n, deepest, pool)
  {
    hide Right;
    SameTree(was, now, deepest, pool);
    forall m | m in now && m != now[n].parent ensures Right(now, now[m]) {
      if m == n {
        BareIsRight(now, was[n]);
      } else {
        assert Hangs(was, m, deepest, pool);
        assert n !in was[m].Instances();
        RightApart(was, now, n, was[m]);
      }
    }
  }

  lemma BareIsRight(h: Heap, s: State)
    ensures Right(h, s.Bare())
  {
  }

  lemma SameTree(was: Heap, now: Heap, deepest: nat, pool: Pool?)
    requires Tree(was, deepest, pool) && SameLayouts(was, now)
    ensures Tree(now, deepest, pool)
  {
    forall n | n in now ensures Hangs(now, n, deepest, pool) {
      assert Hangs(was, n, deepest, pool);
    }
  }

  lemma RootCleared(h: Heap, n: Node, deepest: nat, pool: Pool?)
    requires n in h && h[n].parent == null && Tree(h, deepest, pool)
    requires RightBut(h, h[n].parent)
    ensures Coherent(h, deepest, pool)
  {
  }

  // ----- changing a layout -----

  /** Every cache of every component is right, and so are the group's maps and plan. */
  ghost predicate Current(nodes: set<Node>, deepest: nat, top: Pool?)
    reads nodes, top
  {
    Coherent(At(nodes), deepest, top) && (top != null ==> PoolRight(At(nodes), top.Now()))
  }

  lemma SameHere(was: Heap, now: Heap, n: Node)
    requires SameLayouts(was, now) && n in was
    ensures n in now && now[n].SameLayout(was[n])
  {
  }

  /** Changing what a component reads by itself leaves the tree, and every other component's caches. */
  lemma Reshaped(was: Heap, now: Heap, n: Node, deepest: nat, pool: Pool?)
    requires n in was && n in now && Coherent(was, deepest, pool) && now == was[n := was[n].(own := now[n].own)]
    ensures Tree(now, deepest, pool) && RightBut(now, n)
  {
    hide RightBut;
    Loosened(was, n, deepest, pool);
    Trimmed(was, now, n, deepest, pool);
    OthersRight(was, now, n);
  }

  /** A component may change which instances it has, as long as they hang from it. */
  lemma Rehung(was: Heap, now: Heap, n: Node, deepest: nat, pool: Pool?)
    requires n in was && n in now && Tree(was, deepest, pool) && now == was[n := now[n]]
    requires now[n].parent == was[n].parent && now[n].pool == was[n].pool && now[n].depth == was[n].depth
    requires forall c :: c in now[n].Instances() ==> c in was && was[c].parent == n && was[n].depth < was[c].depth
    ensures Tree(now, deepest, pool)
  {
    hide Flat, Hangs;
    forall m | m in now ensures Hangs(now, m, deepest, pool) {
      assert Hangs(was, m, deepest, pool) && Hangs(was, n, deepest, pool);
      HangsStill(was, now, n, m, deepest, pool);
    }
  }

  lemma HangsStill(was: Heap, now: Heap, n: Node, m: Node, deepest: nat, pool: Pool?)
    requires n in was && n in now && m in was && Hangs(was, m, deepest, pool) && Hangs(was, n, deepest, pool) && now == was[n := now[n]]
    requires now[n].parent == was[n].parent && now[n].pool == was[n].pool && now[n].depth == was[n].depth
    requires forall c :: c in now[n].Instances() ==> c in was && was[c].parent == n && was[n].depth < was[c].depth
    ensures Hangs(now, m, deepest, pool)
  {
    hide Flat;
  }

  /** It may lose some. */
  lemma Trimmed(was: Heap, now: Heap, n: Node, deepest: nat, pool: Pool?)
    requires n in was && n in now && Tree(was, deepest, pool) && now == was[n := now[n]]
    requires now[n].parent == was[n].parent && now[n].pool == was[n].pool && now[n].depth == was[n].depth
    requires forall c :: c in now[n].Instances() ==> c in was[n].Instances()
    ensures Tree(now, deepest, pool)
  {
    hide Flat, Tree;
    HangsHere(was, n, deepest, pool);
    Rehung(was, now, n, deepest, pool);
  }

  lemma OthersRight(was: Heap, now: Heap, n: Node)
    requires n in was && n in now && RightBut(was, n) && now == was[n := now[n]]
    requires now[n].readItems == was[n].readItems && now[n].mapped == was[n].mapped
    ensures RightBut(now, n)
  {
    hide Right;
    forall m | m in now && m != n ensures Right(now, now[m]) {
      assert Right(was, was[m]);
      LayoutChanged(was, now, n, m);
    }
  }

  /** Other components' caches depend on a component only through its caches. */
  lemma LayoutChanged(was: Heap, now: Heap, n: Node, m: Node)
    requires n in was && m in was && m != n && n in now && now == was[n := now[n]]
    requires now[n].readItems == was[n].readItems && now[n].mapped == was[n].mapped && Right(was, was[m])
    ensures Right(now, now[m])
  {
    hide Flat, WithInstances, Build;
    var s := was[m];
    if s.staticItems.Some? { JoinedSame(was, now, Flat(s.statics)); }
    if s.dynamicItems.Some? { JoinedSame(was, now, Flat(s.dynamics)); }
    if s.mapped.Some? { PartsSame(was, now, s.Instances()); }
  }

  lemma {:induction false} JoinedSame(was: Heap, now: Heap, run: seq<Node>)
    requires AllRead(was, run) && was.Keys <= now.Keys && forall n :: n in was ==> now[n].readItems == was[n].readItems
    ensures AllRead(now, run) && Joined(now, run) == Joined(was, run)
    decreases |run|
  {
    if run != [] { JoinedSame(was, now, run[..|run| - 1]); }
  }

  lemma {:induction false} PartsSame(was: Heap, now: Heap, run: seq<Node>)
    requires AllRead(was, run) && AllMapped(was, run) && was.Keys <= now.Keys
    requires forall n :: n in was ==> now[n].readItems == was[n].readItems && now[n].mapped == was[n].mapped
    ensures AllRead(now, run) && AllMapped(now, run) && PartsOf(now, run) == PartsOf(was, run)
    decreases |run|
  {
    if run != [] { PartsSame(was, now, run[..|run| - 1]); }
  }

  lemma {:induction false} FewerInstances(groups: seq<Group>, key: string)
    ensures forall c :: c in Flat(DropGroup(groups, key)) ==> c in Flat(groups)
    decreases |groups|
  {
    if groups != [] {
      var rest, last := groups[..|groups| - 1], groups[|groups| - 1];
      FewerInstances(rest, key);
      var dropped := DropGroup(rest, key);
      assert (dropped + [last])[..|dropped|] == dropped;
    }
  }

  lemma Removed(was: Heap, now: Heap, n: Node, key: string, deepest: nat, pool: Pool?)
    requires n in was && Coherent(was, deepest, pool) && now == was[n := Without(was[n], key)]
    ensures Tree(now, deepest, pool) && RightBut(now, n)
  {
    hide RightBut, Tree, Flat, DropGroup, DropKey;
    FewerInstances(was[n].statics, key);
    FewerInstances(was[n].dynamics, key);
    Loosened(was, n, deepest, pool);
    Trimmed(was, now, n, deepest, pool);
    OthersRight(was, now, n);
  }

  // ----- building instances -----

  lemma OneGroup(key: string, run: seq<Node>)
    ensures Flat([Group(key, run)]) == run && Flat([]) == []
  {
    var groups := [Group(key, run)];
    assert groups[..0] == [];
  }

  /** A new component hangs from one of the tree. */
  lemma Joins(was: Heap, now: Heap, n: Node, deepest: nat, deeper: nat, pool: Pool?)
    requires Tree(was, deepest, pool) && n !in was && n in now && now == was[n := now[n]] && deepest <= deeper
    requires now[n].parent != null && now[n].parent in was && now[n].pool == null && now[now[n].parent].depth < now[n].depth <= deeper
    requires now[n].statics == [] && now[n].dynamics == []
    ensures Tree(now, deeper, pool)
  {
    forall m | m in now ensures Hangs(now, m, deeper, pool) {
      if m != n { assert Hangs(was, m, deepest, pool); }
    }
  }

  /** A component without instances takes some that already hang from it. */
  lemma Takes(was: Heap, now: Heap, n: Node, run: seq<Node>, deepest: nat, pool: Pool?)
    requires Tree(was, deepest, pool) && n in was && n in now && now == was[n := was[n].(statics := now[n].statics)]
    requires Flat(now[n].statics) == run && was[n].dynamics == [] && Flat([]) == []
    requires forall c :: c in run ==> c in was && was[c].parent == n && was[n].depth < was[c].depth
    ensures Tree(now, deepest, pool)
  {
    hide Flat, Tree;
    Rehung(was, now, n, deepest, pool);
  }

  lemma {:induction false} PlacedMore(groups: seq<Group>, kept: seq<nat>, runs: seq<seq<Node>>, run: seq<Node>, n: nat)
    requires n == |runs| < |kept| == |groups|
    ensures AllRegrouped(groups, kept, runs + [run], n) == AllRegrouped(groups, kept, runs, n)
    decreases n
  {
    RunsPrefix(groups, kept, runs, runs + [run], n);
  }

  lemma {:induction false} RunsPrefix(groups: seq<Group>, kept: seq<nat>, a: seq<seq<Node>>, b: seq<seq<Node>>, n: nat)
    requires n <= |a| <= |b| && n <= |kept| == |groups| && forall i :: 0 <= i < n ==> a[i] == b[i]
    ensures AllRegrouped(groups, kept, a, n) == AllRegrouped(groups, kept, b, n)
    decreases n
  {
    if n > 0 { RunsPrefix(groups, kept, a, b, n - 1); }
  }

  lemma Loosened(h: Heap, n: Node, deepest: nat, pool: Pool?)
    requires Coherent(h, deepest, pool)
    ensures Tree(h, deepest, pool) && RightBut(h, n)
  {
  }

  /** New components with nothing cached leave every cache right. */
  lemma MoreNodes(was: Heap, now: Heap, changed: Node)
    requires RightBut(was, changed) && was.Keys <= now.Keys && forall n :: n in was ==> now[n] == was[n]
    requires forall n :: n in now && n !in was ==> now[n] == now[n].Bare()
    ensures RightBut(now, changed)
  {
    hide Right;
    forall m | m in now && m != changed ensures Right(now, now[m]) {
      if m in was {
        assert Right(was, was[m]);
        StillRightIn(was, now, was[m]);
      } else {
        BareIsRight(now, now[m]);
      }
    }
  }

  lemma StillRightIn(was: Heap, now: Heap, s: State)
    requires Right(was, s) && was.Keys <= now.Keys
    requires forall n :: n in was ==> now[n].readItems == was[n].readItems && now[n].mapped == was[n].mapped
    ensures Right(now, s)
  {
    hide Flat, WithInstances, Build;
    if s.staticItems.Some? { JoinedSame(was, now, Flat(s.statics)); }
    if s.dynamicItems.Some? { JoinedSame(was, now, Flat(s.dynamics)); }
    if s.mapped.Some? { PartsSame(was, now, s.Instances()); }
  }

  lemma {:induction false} OfGroup(groups: seq<Group>, k: nat, c: Node)
    requires k < |groups| && c in groups[k].instances
    ensures c in Flat(groups)
    decreases |groups|
  {
    if k < |groups| - 1 { OfGroup(groups[..|groups| - 1], k, c); }
  }

  lemma {:induction false} GroupOf(groups: seq<Group>, c: Node) returns (k: nat)
    requires c in Flat(groups)
    ensures k < |groups| && c in groups[k].instances
    decreases |groups|
  {
    k := |groups| - 1;
    if c !in groups[k].instances { k := GroupOf(groups[..k], c); }
  }

  lemma RegroupedMembers(groups: seq<Group>, k: nat, keep: nat, run: seq<Node>, c: Node)
    requires k < |groups| && c in Flat(Regrouped(groups, k, keep, run))
    ensures c in Flat(groups) || c in run
  {
    hide Flat;
    var j := GroupOf(Regrouped(groups, k, keep, run), c);
    if c in groups[j].instances { OfGroup(groups, j, c); }
  }

  lemma Resizes(was: Heap, now: Heap, n: Node, k: nat, keep: nat, run: seq<Node>, deepest: nat, pool: Pool?)
    requires n in was && n in now && Tree(was, deepest, pool) && RightBut(was, n) && k < |was[n].dynamics|
    requires now == was[n := was[n].(dynamics := Regrouped(was[n].dynamics, k, keep, run))]
    requires forall c :: c in run ==> c in was && was[c].parent == n && was[n].depth < was[c].depth
    ensures Tree(now, deepest, pool) && RightBut(now, n)
  {
    hide RightBut, Flat, Regrouped;
    TreeResized(was, now, n, k, keep, run, deepest, pool);
    OthersRight(was, now, n);
  }

  lemma TreeResized(was: Heap, now: Heap, n: Node, k: nat, keep: nat, run: seq<Node>, deepest: nat, pool: Pool?)
    requires n in was && n in now && Tree(was, deepest, pool) && k < |was[n].dynamics|
    requires now == was[n := was[n].(dynamics := Regrouped(was[n].dynamics, k, keep, run))]
    requires forall c :: c in run ==> c in was && was[c].parent == n && was[n].depth < was[c].depth
    ensures Tree(now, deepest, pool)
  {
    hide Flat, Regrouped, Tree;
    HangsHere(was, n, deepest, pool);
    forall c | c in now[n].Instances() ensures c in was && was[c].parent == n && was[n].depth < was[c].depth {
      if c in Flat(now[n].dynamics) && c !in was[n].Instances() {
        RegroupedMembers(was[n].dynamics, k, keep, run, c);
      }
    }
    Rehung(was, now, n, deepest, pool);
  }

  lemma {:induction false} NothingPlaced(groups: seq<Group>, kept: seq<nat>, added: seq<Template>, runs: seq<seq<Node>>, n: nat)
    requires |kept| == |added| == |groups| == |runs| && n <= |runs| && SameSize(groups, kept, added)
    requires forall k :: 0 <= k < |runs| ==> runs[k] == []
    ensures AllRegrouped(groups, kept, runs, n) == groups
    decreases n
  {
    if n > 0 {
      NothingPlaced(groups, kept, added, runs, n - 1);
      var all := groups[n - 1].instances;
      assert kept[n - 1] >= |all| && all + [] == all && all[..|all|] == all;
      assert groups[n - 1 := groups[n - 1]] == groups;
    }
  }

  lemma GroupAdded(was: Heap, now: Heap, n: Node, key: string, count: Option<ResolvedField>, run: seq<Node>, deepest: nat, pool: Pool?)
    requires n in was && Tree(was, deepest, pool) && RightBut(was, n) && now == was[n := WithGroup(was[n], key, count, run)]
    requires count.None? ==> forall c :: c in run ==> c in was && was[c].parent == n && was[n].depth < was[c].depth
    ensures Tree(now, deepest, pool) && RightBut(now, n)
  {
    hide Flat, Tree, RightBut;
    HangsHere(was, n, deepest, pool);
    forall c | c in now[n].Instances() ensures c in was && was[c].parent == n && was[n].depth < was[c].depth {
      OneMoreGroup(was[n].statics, Group(key, run), c);
      OneMoreGroup(was[n].dynamics, Group(key, []), c);
      assert c in was[n].Instances() || c in run;
    }
    Rehung(was, now, n, deepest, pool);
    OthersRight(was, now, n);
  }

  lemma OneMoreGroup(groups: seq<Group>, last: Group, c: Node)
    ensures c in Flat(groups + [last]) <==> c in Flat(groups) || c in last.instances
  {
    assert (groups + [last])[..|groups|] == groups;
  }

  // ----- putting components into a group -----

  /** Only the outermost components learn of their group. */
  ghost predicate Gathered(was: Heap, now: Heap, pool: Pool) {
    && was.Keys == now.Keys
    && (forall n :: n in was ==> now[n] == was[n].(pool := now[n].pool))
    && (forall n :: n in was ==> now[n].pool == if was[n].parent == null then pool else was[n].pool)
    && (forall m :: m in pool.members ==> m in was && was[m].parent == null)
  }

  lemma GatheredTree(was: Heap, now: Heap, deepest: nat, pool: Pool)
    requires Tree(was, deepest, null) && Gathered(was, now, pool)
    ensures Tree(now, deepest, pool)
  {
    hide Flat, Hangs;
    forall n | n in now ensures Hangs(now, n, deepest, pool) {
      assert Hangs(was, n, deepest, null);
      GatheredHangs(was, now, n, deepest, pool);
    }
  }

  lemma GatheredHangs(was: Heap, now: Heap, n: Node, deepest: nat, pool: Pool)
    requires n in was && Hangs(was, n, deepest, null) && Gathered(was, now, pool)
    ensures Hangs(now, n, deepest, pool)
  {
    hide Flat;
  }

  lemma GatheredIn(was: Heap, now: Heap, deepest: nat, pool: Pool)
    requires Coherent(was, deepest, null) && Gathered(was, now, pool)
    ensures Coherent(now, deepest, pool)
  {
    hide Right, Tree;
    GatheredTree(was, now, deepest, pool);
    forall n | n in now ensures Right(now, now[n]) {
      assert Right(was, was[n]);
      StillRightIn(was, now, was[n]);
      SameButPool(now, was[n], now[n]);
    }
  }

  lemma SameButPool(h: Heap, a: State, b: State)
    requires Right(h, a) && b == a.(pool := b.pool)
    ensures Right(h, b)
  {
    hide Flat, WithInstances, Build;
  }

  /** Pool the outermost components of some trees (`ComponentGroup.__init__`). */
  method Gather(members: seq<Node>, maxSpan: int, ghost nodes: set<Node>, ghost deepest: nat) returns (ok: bool, group: Pool)
    requires Coherent(At(nodes), deepest, null)
    requires forall n :: n in nodes ==> (n in members <==> n.parent == null)
    requires forall m :: m in members ==> m in nodes
    modifies nodes
    ensures fresh(group) && group.members == members && group.maxSpan == maxSpan
    ensures Coherent(At(nodes), deepest, group) && (ok ==> PoolRight(At(nodes), group.Now()))
    ensures ok <==> MapsFit(At(nodes), deepest, group)
  {
    hide Coherent, PoolRight, MapsFit;
    ghost var was := At(nodes);
    group := new Pool(members, maxSpan);
    forall m | m in members { m.pool := group; }
    GatheredIn(was, At(nodes), deepest, group);
    ok := group.Invalidate(nodes, deepest);
  }

  // ----- what the caches are worth -----

  /** What a component reads, worked out from the tree alone. */
  ghost function ItemsOf(h: Heap, n: Node, deepest: nat, pool: Pool?): seq<ResolvedField>
    requires Tree(h, deepest, pool) && n in h
    decreases deepest - h[n].depth, 1
  {
    assert Hangs(h, n, deepest, pool);
    h[n].own.Items() + ItemsOfRun(h, Flat(h[n].statics), n, deepest, pool) + ItemsOfRun(h, Flat(h[n].dynamics), n, deepest, pool)
  }

  ghost function ItemsOfRun(h: Heap, run: seq<Node>, n: Node, deepest: nat, pool: Pool?): seq<ResolvedField>
    requires Tree(h, deepest, pool) && n in h && forall c :: c in run ==> c in h[n].Instances()
    decreases deepest - h[n].depth, 0, |run|
  {
    assert Hangs(h, n, deepest, pool);
    if run == [] then []
    else
      var last := run[|run| - 1];
      assert last in h[n].Instances() && Hangs(h, last, deepest, pool);
      ItemsOfRun(h, run[..|run| - 1], n, deepest, pool) + ItemsOf(h, last, deepest, pool)
  }

  /** A component's map, worked out from the tree alone. */
  ghost function MapOfNode(h: Heap, n: Node, deepest: nat, pool: Pool?): Result<DeviceRanges, GroupError>
    requires Tree(h, deepest, pool) && n in h
    decreases deepest - h[n].depth, 1
  {
    assert Hangs(h, n, deepest, pool);
    var parts := PartsOfRun(h, h[n].Instances(), n, deepest, pool);
    if parts.Err? then Err(parts.error)
    else WithInstances(Part(h[n].own.ranges, h[n].own.Items()), parts.value, h[n].own.maxGap, h[n].own.maxSpan)
  }

  ghost function PartsOfRun(h: Heap, run: seq<Node>, n: Node, deepest: nat, pool: Pool?): Result<seq<Part>, GroupError>
    requires Tree(h, deepest, pool) && n in h && forall c :: c in run ==> c in h[n].Instances()
    decreases deepest - h[n].depth, 0, |run|
  {
    assert Hangs(h, n, deepest, pool);
    if run == [] then Ok([])
    else
      var last := run[|run| - 1];
      assert last in h[n].Instances() && Hangs(h, last, deepest, pool);
      var rest, one := PartsOfRun(h, run[..|run| - 1], n, deepest, pool), MapOfNode(h, last, deepest, pool);
      if rest.Err? then rest
      else if one.Err? then Err(one.error)
      else Ok(rest.value + [Part(one.value, ItemsOf(h, last, deepest, pool))])
  }

  lemma {:induction false} RunIsCurrent(h: Heap, run: seq<Node>, n: Node, deepest: nat, pool: Pool?)
    requires Coherent(h, deepest, pool) && n in h && forall c :: c in run ==> c in h[n].Instances()
    ensures AllRead(h, run) ==> Joined(h, run) == ItemsOfRun(h, run, n, deepest, pool)
    ensures AllRead(h, run) && AllMapped(h, run) ==> PartsOfRun(h, run, n, deepest, pool) == Ok(PartsOf(h, run))
    decreases deepest - h[n].depth, 0, |run|
  {
    hide Tree, RightBut;
    HangsHere(h, n, deepest, pool);
    if run != [] {
      var last := run[|run| - 1];
      RunIsCurrent(h, run[..|run| - 1], n, deepest, pool);
      assert last in h[n].Instances();
      HangsHere(h, last, deepest, pool);
      CachesAreCurrent(h, last, deepest, pool);
    }
  }

  /**
   Cache coherence: whatever a component has cached is what working it out from the
   tree as it now is would give.
   */
  lemma {:induction false} CachesAreCurrent(h: Heap, n: Node, deepest: nat, pool: Pool?)
    requires Coherent(h, deepest, pool) && n in h
    ensures h[n].readItems.Some? ==> h[n].readItems.value == ItemsOf(h, n, deepest, pool)
    ensures h[n].mapped.Some? ==> MapOfNode(h, n, deepest, pool) == Ok(h[n].mapped.value)
    ensures h[n].plan.Some? ==>
      && MapOfNode(h, n, deepest, pool).Ok?
      && Build(ItemsOf(h, n, deepest, pool), MapOfNode(h, n, deepest, pool).value, h[n].own.maxGap, h[n].own.maxSpan) == Ok(h[n].plan.value)
    decreases deepest - h[n].depth, 1
  {
    hide Tree, Flat, WithInstances, Build, Joined, PartsOf, AllRead, AllMapped;
    HangsHere(h, n, deepest, pool);
    assert Right(h, h[n]);
    var s := h[n];
    RunIsCurrent(h, Flat(s.statics), n, deepest, pool);
    RunIsCurrent(h, Flat(s.dynamics), n, deepest, pool);
    RunIsCurrent(h, s.Instances(), n, deepest, pool);
  }

  /** What a group needs of its members, worked out from the tree alone. */
  ghost function MembersNow(h: Heap, run: seq<Node>, deepest: nat, pool: Pool?): Result<seq<Member>, GroupError>
    requires Tree(h, deepest, pool) && forall m :: m in run ==> m in h
    decreases |run|
  {
    if run == [] then Ok([])
    else
      var last := run[|run| - 1];
      var rest, one := MembersNow(h, run[..|run| - 1], deepest, pool), MapOfNode(h, last, deepest, pool);
      if rest.Err? then rest
      else if one.Err? then Err(one.error)
      else Ok(rest.value + [Member(one.value, ItemsOf(h, last, deepest, pool), h[last].own.maxGap, h[last].own.maxSpan)])
  }

  lemma {:induction false} MembersAreCurrent(h: Heap, run: seq<Node>, deepest: nat, pool: Pool?)
    requires Coherent(h, deepest, pool) && AllRead(h, run) && AllMapped(h, run)
    ensures MembersNow(h, run, deepest, pool) == Ok(MembersOf(h, run))
    decreases |run|
  {
    hide Tree, RightBut, ItemsOf, MapOfNode;
    if run != [] {
      MembersAreCurrent(h, run[..|run| - 1], deepest, pool);
      CachesAreCurrent(h, run[|run| - 1], deepest, pool);
    }
  }

  /** And a group's ranges, and its plan if it has one, are those of its members' trees as they now are. */
  lemma GroupIsCurrent(h: Heap, p: PoolState, deepest: nat, pool: Pool?)
    requires Coherent(h, deepest, pool) && PoolRight(h, p)
    ensures MembersNow(h, p.members, deepest, pool).Ok?
    ensures var members := MembersNow(h, p.members, deepest, pool).value;
      && GroupRanges(members) == Ok(p.ranges)
      && (p.plan.Some? ==> Pooled(members, p.ranges, p.maxSpan) == Ok(p.plan.value))
  {
    hide Coherent, GroupRanges, Pooled;
    MembersAreCurrent(h, p.members, deepest, pool);
  }

  // ----- when maps and plans fail -----

  /** A read plan can be made for a component, worked out from the tree alone. */
  ghost predicate CanPlan(h: Heap, n: Node, deepest: nat, pool: Pool?)
    requires Tree(h, deepest, pool) && n in h
  {
    var map_ := MapOfNode(h, n, deepest, pool);
    map_.Ok? && Build(ItemsOf(h, n, deepest, pool), map_.value, h[n].own.maxGap, h[n].own.maxSpan).Ok?
  }

  /** Some of its instances can be read under its map. */
  ghost predicate CanRead(h: Heap, run: seq<Node>, n: Node, deepest: nat, pool: Pool?)
    requires Tree(h, deepest, pool) && n in h && forall c :: c in run ==> c in h[n].Instances()
  {
    var map_ := MapOfNode(h, n, deepest, pool);
    map_.Ok? && Build(ItemsOfRun(h, run, n, deepest, pool), map_.value, h[n].own.maxGap, h[n].own.maxSpan).Ok?
  }

  /** The maps of a group's members fit together, worked out from their trees alone. */
  ghost predicate MapsFit(h: Heap, deepest: nat, top: Pool?) {
    top == null ||
    (&& Tree(h, deepest, top)
     && MembersNow(h, top.members, deepest, top).Ok?
     && GroupRanges(MembersNow(h, top.members, deepest, top).value).Ok?)
  }

  /** How a change that was made went. */
  ghost function Judged(h: Heap, deepest: nat, top: Pool?): Outcome {
    if MapsFit(h, deepest, top) then Done else Conflicting
  }

  /** A group can plan the reads of its members. */
  ghost predicate CanPool(h: Heap, p: PoolState, deepest: nat, pool: Pool?)
    requires Tree(h, deepest, pool) && forall m :: m in p.members ==> m in h
  {
    var members := MembersNow(h, p.members, deepest, pool);
    members.Ok? && Pooled(members.value, p.ranges, p.maxSpan).Ok?
  }

  lemma UnpooledFit(h: Heap, deepest: nat)
    ensures MapsFit(h, deepest, null)
  {
  }

  lemma FitIs(h: Heap, deepest: nat, top: Pool, parts: Result<seq<Member>, GroupError>)
    requires Coherent(h, deepest, top) && (forall m :: m in top.members ==> m in h) && parts == MembersNow(h, top.members, deepest, top)
    ensures MapsFit(h, deepest, top) <==> parts.Ok? && GroupRanges(parts.value).Ok?
  {
    hide Tree, RightBut, MembersNow, GroupRanges;
  }

  lemma CurrentFits(nodes: set<Node>, deepest: nat, top: Pool?)
    requires Current(nodes, deepest, top)
    ensures MapsFit(At(nodes), deepest, top)
  {
    hide RightBut, PoolRight, Tree, GroupRanges;
    if top != null { GroupIsCurrent(At(nodes), top.Now(), deepest, top); }
  }

  lemma MapFromParts(h: Heap, n: Node, parts: Result<seq<Part>, GroupError>, deepest: nat, pool: Pool?)
    requires Coherent(h, deepest, pool) && n in h && parts == PartsOfRun(h, h[n].Instances(), n, deepest, pool)
    ensures MapOfNode(h, n, deepest, pool) ==
            if parts.Err? then Err(parts.error)
            else WithInstances(Part(h[n].own.ranges, h[n].own.Items()), parts.value, h[n].own.maxGap, h[n].own.maxSpan)
  {
    hide RightBut, Tree, WithInstances, PartsOfRun;
  }

  lemma {:induction false} PartsFailAt(h: Heap, run: seq<Node>, i: nat, n: Node, deepest: nat, pool: Pool?)
    requires Coherent(h, deepest, pool) && n in h && (forall c :: c in run ==> c in h[n].Instances())
    requires i < |run| && run[i] in h && PartsOfRun(h, run[..i], n, deepest, pool).Ok? && MapOfNode(h, run[i], deepest, pool).Err?
    ensures PartsOfRun(h, run, n, deepest, pool) == Err(MapOfNode(h, run[i], deepest, pool).error)
    decreases |run|
  {
    hide RightBut, MapOfNode, ItemsOf, Tree;
    var rest := run[..|run| - 1];
    if i < |rest| {
      assert rest[..i] == run[..i];
      PartsFailAt(h, rest, i, n, deepest, pool);
    }
  }

  lemma {:induction false} MembersFailAt(h: Heap, run: seq<Node>, i: nat, deepest: nat, pool: Pool?)
    requires Coherent(h, deepest, pool) && forall m :: m in run ==> m in h
    requires i < |run| && MembersNow(h, run[..i], deepest, pool).Ok? && MapOfNode(h, run[i], deepest, pool).Err?
    ensures MembersNow(h, run, deepest, pool) == Err(MapOfNode(h, run[i], deepest, pool).error)
    decreases |run|
  {
    hide RightBut, MapOfNode, ItemsOf, Tree;
    var rest := run[..|run| - 1];
    if i < |rest| {
      assert rest[..i] == run[..i];
      MembersFailAt(h, rest, i, deepest, pool);
    }
  }

  /** What a component reads and its map depend on layouts alone. */
  lemma {:induction false} MapByLayout(was: Heap, now: Heap, n: Node, deepest: nat, pool: Pool?)
    requires Tree(was, deepest, pool) && Tree(now, deepest, pool) && SameLayouts(was, now) && n in was
    ensures ItemsOf(was, n, deepest, pool) == ItemsOf(now, n, deepest, pool)
    ensures MapOfNode(was, n, deepest, pool) == MapOfNode(now, n, deepest, pool)
    decreases deepest - was[n].depth, 1
  {
    hide Tree, Flat, WithInstances;
    HangsHere(was, n, deepest, pool);
    SameHere(was, now, n);
    RunByLayout(was, now, Flat(was[n].statics), n, deepest, pool);
    RunByLayout(was, now, Flat(was[n].dynamics), n, deepest, pool);
    RunByLayout(was, now, was[n].Instances(), n, deepest, pool);
  }

  lemma {:induction false} RunByLayout(was: Heap, now: Heap, run: seq<Node>, n: Node, deepest: nat, pool: Pool?)
    requires Tree(was, deepest, pool) && Tree(now, deepest, pool) && SameLayouts(was, now) && n in was
    requires forall c :: c in run ==> c in was[n].Instances() && c in now[n].Instances()
    ensures ItemsOfRun(was, run, n, deepest, pool) == ItemsOfRun(now, run, n, deepest, pool)
    ensures PartsOfRun(was, run, n, deepest, pool) == PartsOfRun(now, run, n, deepest, pool)
    decreases deepest - was[n].depth, 0, |run|
  {
    hide Tree, Flat;
    HangsHere(was, n, deepest, pool);
    if run != [] {
      var last := run[|run| - 1];
      RunByLayout(was, now, run[..|run| - 1], n, deepest, pool);
      assert last in was[n].Instances();
      HangsHere(was, last, deepest, pool);
      MapByLayout(was, now, last, deepest, pool);
    }
  }

  lemma {:induction false} MembersByLayout(was: Heap, now: Heap, run: seq<Node>, deepest: nat, pool: Pool?)
    requires Tree(was, deepest, pool) && Tree(now, deepest, pool) && SameLayouts(was, now) && forall m :: m in run ==> m in was
    ensures MembersNow(was, run, deepest, pool) == MembersNow(now, run, deepest, pool)
    decreases |run|
  {
    hide Tree, ItemsOf, MapOfNode;
    if run != [] {
      MembersByLayout(was, now, run[..|run| - 1], deepest, pool);
      MapByLayout(was, now, run[|run| - 1], deepest, pool);
      SameHere(was, now, run[|run| - 1]);
    }
  }

  /** So does whether a group's maps fit. */
  lemma FitsByLayout(was: Heap, now: Heap, deepest: nat, top: Pool?)
    requires SameLayouts(was, now)
    ensures MapsFit(was, deepest, top) <==> MapsFit(now, deepest, top)
  {
    hide GroupRanges, MembersNow;
    if top != null {
      if Tree(was, deepest, top) { SameTree(was, now, deepest, top); }
      if Tree(now, deepest, top) { SameTree(now, was, deepest, top); }
      if Tree(was, deepest, top) { MembersByLayout(was, now, top.members, deepest, top); }
    }
  }

  // ----- what was placed -----

  lemma {:induction false} NoRun(runs: seq<seq<Node>>, n: nat)
    requires n <= |runs| && forall k :: 0 <= k < |runs| ==> runs[k] == []
    ensures Run(runs, n) == []
  {
    if n > 0 { NoRun(runs, n - 1); }
  }

  lemma {:induction false} RunMembers(runs: seq<seq<Node>>, n: nat, c: Node) returns (k: nat)
    requires n <= |runs| && c in Run(runs, n)
    ensures k < n && c in runs[k]
  {
    if c in runs[n - 1] { k := n - 1; } else { k := RunMembers(runs, n - 1, c); }
  }

  lemma {:induction false} RegroupedHas(groups: seq<Group>, kept: seq<nat>, runs: seq<seq<Node>>, n: nat, k: nat)
    requires k < n <= |runs| && n <= |kept| == |groups|
    ensures forall c :: c in runs[k] ==> c in AllRegrouped(groups, kept, runs, n)[k].instances
    decreases n
  {
    if k < n - 1 { RegroupedHas(groups, kept, runs, n - 1, k); }
  }

  /** What was placed is among the instances. */
  lemma PlacedAreInstances(groups: seq<Group>, kept: seq<nat>, runs: seq<seq<Node>>, n: nat)
    requires n == |runs| == |kept| == |groups|
    ensures forall c :: c in Run(runs, n) ==> c in Flat(AllRegrouped(groups, kept, runs, n))
  {
    hide Flat, AllRegrouped, Run;
    forall c | c in Run(runs, n) ensures c in Flat(AllRegrouped(groups, kept, runs, n)) {
      var k := RunMembers(runs, n, c);
      RegroupedHas(groups, kept, runs, n, k);
      OfGroup(AllRegrouped(groups, kept, runs, n), k, c);
    }
  }

  // ----- what adding, dropping, keeping and resizing do -----

  /** `picked` is what stands at these positions of `from`, in order. */
  ghost predicate Picks<T>(picked: seq<T>, from: seq<T>, order: seq<nat>) {
    && |picked| == |order|
    && (forall i, j :: 0 <= i < j < |order| ==> order[i] < order[j])
    && (forall j :: 0 <= j < |order| ==> order[j] < |from| && picked[j] == from[order[j]])
  }

  lemma PicksMore<T>(picked: seq<T>, from: seq<T>, order: seq<nat>)
    requires from != [] && Picks(picked, from[..|from| - 1], order)
    ensures Picks(picked, from, order)
    ensures Picks(picked + [from[|from| - 1]], from, order + [|from| - 1])
  {
  }

  lemma InOneMore(order: seq<nat>, n: nat)
    ensures forall i: nat :: i in order + [n] <==> i in order || i == n
  {
  }

  /** Dropping a key leaves exactly the other targets, in order. */
  lemma {:induction false} OthersStay(targets: seq<(string, ResolvedField)>, key: string) returns (order: seq<nat>)
    ensures Picks(DropKey(targets, key), targets, order)
    ensures forall i: nat :: i in order <==> i < |targets| && targets[i].0 != key
  {
    if targets == [] {
      order := [];
    } else {
      var n, last := |targets| - 1, targets[|targets| - 1];
      assert DropKey(targets, key) == if last.0 == key then DropKey(targets[..n], key) else DropKey(targets[..n], key) + [last];
      hide Picks, DropKey;
      order := OthersStay(targets[..n], key);
      PicksMore(DropKey(targets[..n], key), targets, order);
      InOneMore(order, n);
      order := if last.0 == key then order else order + [n];
    }
  }

  /** And exactly the other groups. */
  lemma {:induction false} OtherGroupsStay(groups: seq<Group>, key: string) returns (order: seq<nat>)
    ensures Picks(DropGroup(groups, key), groups, order)
    ensures forall i: nat :: i in order <==> i < |groups| && groups[i].key != key
  {
    if groups == [] {
      order := [];
    } else {
      var n, last := |groups| - 1, groups[|groups| - 1];
      assert DropGroup(groups, key) == if last.key == key then DropGroup(groups[..n], key) else DropGroup(groups[..n], key) + [last];
      hide Picks, DropGroup;
      order := OtherGroupsStay(groups[..n], key);
      PicksMore(DropGroup(groups[..n], key), groups, order);
      InOneMore(order, n);
      order := if last.key == key then order else order + [n];
    }
  }

  /** Narrowing leaves exactly the targets named, in order. */
  lemma {:induction false} NamedStay(targets: seq<(string, ResolvedField)>, keep: set<string>) returns (order: seq<nat>)
    ensures Picks(Kept(targets, keep), targets, order)
    ensures forall i: nat :: i in order <==> i < |targets| && targets[i].0 in keep
  {
    if targets == [] {
      order := [];
    } else {
      var n, last := |targets| - 1, targets[|targets| - 1];
      assert Kept(targets, keep) == if last.0 in keep then Kept(targets[..n], keep) + [last] else Kept(targets[..n], keep);
      hide Picks, Kept;
      order := NamedStay(targets[..n], keep);
      PicksMore(Kept(targets[..n], keep), targets, order);
      InOneMore(order, n);
      order := if last.0 in keep then order + [n] else order;
    }
  }

  /** Nothing is under the key. */
  ghost predicate Unused(s: State, key: string) {
    && (forall t :: t in s.own.targets ==> t.0 != key)
    && (forall g :: g in s.statics ==> g.key != key)
    && (forall g :: g in s.dynamics ==> g.key != key)
  }

  lemma {:induction false} NothingToDrop(targets: seq<(string, ResolvedField)>, groups: seq<Group>, key: string)
    ensures (forall t :: t in targets ==> t.0 != key) ==> DropKey(targets, key) == targets
    ensures (forall g :: g in groups ==> g.key != key) ==> DropGroup(groups, key) == groups
    decreases |targets| + |groups|
  {
    if targets != [] {
      NothingToDrop(targets[..|targets| - 1], [], key);
      assert targets == targets[..|targets| - 1] + [targets[|targets| - 1]];
    }
    if groups != [] {
      NothingToDrop([], groups[..|groups| - 1], key);
      assert groups == groups[..|groups| - 1] + [groups[|groups| - 1]];
    }
  }

  lemma DropLast(targets: seq<(string, ResolvedField)>, groups: seq<Group>, key: string, target: ResolvedField, run: seq<Node>)
    ensures DropKey(targets + [(key, target)], key) == DropKey(targets, key)
    ensures DropGroup(groups + [Group(key, run)], key) == DropGroup(groups, key)
  {
    assert (targets + [(key, target)])[..|targets|] == targets;
    assert (groups + [Group(key, run)])[..|groups|] == groups;
  }

  /** After dropping a key nothing is under it. */
  lemma DroppedIsUnused(s: State, key: string)
    ensures Unused(Without(s, key), key)
  {
    hide DropKey, DropGroup;
    var a := OthersStay(s.own.targets, key);
    var b := OtherGroupsStay(s.statics, key);
    var c := OtherGroupsStay(s.dynamics, key);
    forall j | 0 <= j < |a| ensures DropKey(s.own.targets, key)[j].0 != key { assert a[j] in a; }
    forall j | 0 <= j < |b| ensures DropGroup(s.statics, key)[j].key != key { assert b[j] in b; }
    forall j | 0 <= j < |c| ensures DropGroup(s.dynamics, key)[j].key != key { assert c[j] in c; }
  }

  /** Adding under an unused key and removing it again changes nothing: a target, a fixed group or a polled one. */
  lemma RemovingUndoesAdding(s: State, key: string, target: ResolvedField, run: seq<Node>)
    requires Unused(s, key)
    ensures Without(WithTarget(s, key, target), key) == s
    ensures Without(WithGroup(s, key, Some(target), run), key) == s
    ensures Without(WithGroup(s, key, None, run), key) == s
  {
    hide DropKey, DropGroup, Unused;
    Undropped(s, key);
    DropLast(s.own.targets, s.statics, key, target, run);
    DropLast(s.own.targets, s.dynamics, key, target, []);
  }

  lemma Undropped(s: State, key: string)
    requires Unused(s, key)
    ensures DropKey(s.own.targets, key) == s.own.targets && DropGroup(s.statics, key) == s.statics && DropGroup(s.dynamics, key) == s.dynamics
  {
    NothingToDrop(s.own.targets, s.statics, key);
    NothingToDrop([], s.dynamics, key);
  }

  /** What was added is the last to be read, after everything that was there: a polled group by its count alone. */
  lemma AddedComesLast(s: State, key: string, target: ResolvedField, run: seq<Node>)
    ensures WithTarget(s, key, target).own.Items() == s.own.Items() + [target]
    ensures WithTarget(s, key, target).Instances() == s.Instances()
    ensures WithGroup(s, key, Some(target), run).own.Items() == s.own.Items() + [target]
    ensures WithGroup(s, key, Some(target), run).Instances() == s.Instances()
    ensures WithGroup(s, key, None, run).own.Items() == s.own.Items()
    ensures Flat(WithGroup(s, key, None, run).statics) == Flat(s.statics) + run
  {
    assert (s.statics + [Group(key, run)])[..|s.statics|] == s.statics;
    assert (s.dynamics + [Group(key, [])])[..|s.dynamics|] == s.dynamics;
  }

  /** Each resized group has its leading instances, as many as stay, and behind them what was built for it. */
  lemma {:induction false} LeadingInstancesStay(groups: seq<Group>, kept: seq<nat>, runs: seq<seq<Node>>, n: nat, k: nat)
    requires n <= |runs| && n <= |kept| == |groups| && k < |groups|
    ensures var now, was := AllRegrouped(groups, kept, runs, n)[k], groups[k];
      && now.key == was.key
      && (k >= n ==> now == was)
      && (k < n ==>
          var stay := if kept[k] < |was.instances| then kept[k] else |was.instances|;
          && |now.instances| == stay + |runs[k]|
          && (forall i :: 0 <= i < stay ==> now.instances[i] == was.instances[i])
          && (forall i :: 0 <= i < |runs[k]| ==> now.instances[stay + i] == runs[k][i]))
    decreases n
  {
    if n > 0 { LeadingInstancesStay(groups, kept, runs, n - 1, k); }
  }

  /** A resize has nothing to do exactly when it would leave every group as it is. */
  lemma SameSizeChangesNothing(groups: seq<Group>, kept: seq<nat>, added: seq<Template>, runs: seq<seq<Node>>)
    requires |kept| == |added| == |runs| == |groups| && forall k :: 0 <= k < |groups| ==> |runs[k]| == |added[k].statics|
    requires forall k, c :: 0 <= k < |groups| && c in runs[k] ==> c !in groups[k].instances
    ensures SameSize(groups, kept, added) <==> AllRegrouped(groups, kept, runs, |groups|) == groups
  {
    hide AllRegrouped;
    var now := AllRegrouped(groups, kept, runs, |groups|);
    forall k | 0 <= k < |groups| ensures now[k] == groups[k] <==> kept[k] >= |groups[k].instances| && added[k].statics == [] {
      LeadingInstancesStay(groups, kept, runs, |groups|, k);
      if runs[k] != [] { assert runs[k][0] in runs[k] && runs[k][0] in now[k].instances; }
      else if kept[k] < |groups[k].instances| { assert |now[k].instances| < |groups[k].instances|; }
      else { assert now[k].instances == groups[k].instances; }
    }
  }
}
