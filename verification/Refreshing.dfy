/**
 Resizing a live component's repeating groups from the values just read
 (`_build_groups`, `_build_instances` and `_refresh_repeating_groups` in
 src/modbus_connection/model/_component_base.py).

 A component is a tree of instances. A refresh reads every register of the current
 tree, then grows and shrinks its poll-time groups in place. `Ideal` is what a reader
 who knew the device's counts and strides would build in one go.
 */
module Refreshing {
  import opened Wrappers
  import opened Merging
  import opened Reading

  // ----- declarations -----

  type Values = map<string, Option<int>>

  datatype FieldDecl = FieldDecl(name: string, address: int, width: nat, scale: Option<int>, space: Space)

  /** How often a poll-time group repeats; a count register moves with the instance unless it is not in the block. */
  datatype CountSource = Always(n: int) | Counted(field: FieldDecl, inBlock: bool)

  /** How far apart its instances are: a number, or computed from the values of the outermost component. */
  datatype StrideSource = Apart(n: int) | Computed(of: Values -> int)

  datatype Component = Component(fields: seq<FieldDecl>, scaleInBlock: bool, statics: seq<Static>, polled: seq<Polled>)

  datatype Static = Static(component: Component, count: int, stride: int)

  datatype Polled = Polled(component: Component, count: CountSource, stride: StrideSource)

  /** The device, and where the outermost component sits on it. */
  datatype World = World(base: int, image: Image, decode: Decoder<Option<int>>)

  datatype StrideError = StrideError

  // ----- the live tree -----

  /** `listeners` belong to the instance: they last as long as it is not rebuilt. */
  datatype Node = Node(
    shift: int, values: Values, counts: map<nat, Option<int>>, strides: map<nat, int>, listeners: set<nat>,
    statics: seq<seq<Node>>, polled: seq<seq<Node>>)

  function Resolve(f: FieldDecl, inBlock: bool, base: int, shift: int): ResolvedField {
    ResolvedField(f.name, f.address + base + shift, f.width,
                  if f.scale.Some? then Some(f.scale.value + base + if inBlock then shift else 0) else None, f.space)
  }

  /** What a field of an instance at `shift` reads as. */
  function ValueOf(f: FieldDecl, c: Component, shift: int, w: World): Option<int> {
    FieldValue(Resolve(f, c.scaleInBlock, w.base, shift), w.image, w.decode)
  }

  /** What a group's count register reads as (`_count_items`): a point of the fixed block does not shift. */
  function CountOf(f: FieldDecl, inBlock: bool, c: Component, shift: int, w: World): Option<int> {
    var moved := Resolve(f, c.scaleInBlock, w.base, shift);
    FieldValue(if inBlock then moved else moved.(address := moved.address - shift), w.image, w.decode)
  }

  /** The instances `start` to before `stop` of a group, as built. */
  function BuildRun(c: Component, shift: int, stride: int, start: nat, stop: int): (run: seq<Node>)
    ensures |run| == if stop > start then stop - start else 0
    decreases c, 1
  {
    seq(if stop > start then stop - start else 0, i requires 0 <= i => Build(c, shift + (start + i) * stride))
  }

  /** A freshly built component: its fixed groups' instances, and no other. */
  function Build(c: Component, shift: int): Node
    decreases c, 0
  {
    Node(shift, map[], map[], map[], {},
         seq(|c.statics|, k requires 0 <= k < |c.statics| => BuildRun(c.statics[k].component, shift, c.statics[k].stride, 0, c.statics[k].count)),
         seq(|c.polled|, k requires 0 <= k < |c.polled| => []))
  }

  // ----- reading the current tree -----

  function ReadFields(was: Values, c: Component, n: nat, shift: int, w: World): Values
    requires n <= |c.fields|
    decreases n
  {
    if n == 0 then was else ReadFields(was, c, n - 1, shift, w)[c.fields[n - 1].name := ValueOf(c.fields[n - 1], c, shift, w)]
  }

  function ReadCounts(was: map<nat, Option<int>>, c: Component, n: nat, shift: int, w: World): map<nat, Option<int>>
    requires n <= |c.polled|
    decreases n
  {
    if n == 0 then was
    else
      var rest, count := ReadCounts(was, c, n - 1, shift, w), c.polled[n - 1].count;
      if count.Counted? then rest[n - 1 := CountOf(count.field, count.inBlock, c, shift, w)] else rest
  }

  function ReadRun(run: seq<Node>, c: Component, w: World): (now: seq<Node>)
    ensures |now| == |run|
    decreases c, 1
  {
    seq(|run|, i requires 0 <= i < |run| => Read(run[i], c, w))
  }

  /** Every field, count and current instance read anew: what executing the component's plan does. */
  function Read(node: Node, c: Component, w: World): Node
    decreases c, 0
  {
    Node(node.shift, ReadFields(node.values, c, |c.fields|, node.shift, w), ReadCounts(node.counts, c, |c.polled|, node.shift, w),
         node.strides, node.listeners,
         seq(|c.statics|, k requires 0 <= k < |c.statics| => if k < |node.statics| then ReadRun(node.statics[k], c.statics[k].component, w) else []),
         seq(|c.polled|, k requires 0 <= k < |c.polled| => if k < |node.polled| then ReadRun(node.polled[k], c.polled[k].component, w) else []))
  }

  // ----- resizing -----

  /** The count a poll-time group is resized to. */
  function Wanted(p: Polled, k: nat, counts: map<nat, Option<int>>): nat {
    var value := if p.count.Always? then Some(p.count.n) else if k in counts then counts[k] else None;
    if value.Some? && value.value > 0 then value.value else 0
  }

  function StrideOf(p: Polled, root: Values): int {
    match p.stride
    case Apart(n) => n
    case Computed(of) => of(root)
  }

  /** One group resized: the surviving instances, then the new ones, read once built. */
  function Resized(existing: seq<Node>, p: Polled, count: nat, shift: int, stride: int, w: World): seq<Node> {
    if |existing| >= count then existing[..count]
    else existing + ReadRun(BuildRun(p.component, shift, stride, |existing|, count), p.component, w)
  }

  /** The instances that may stay: none of them once the stride has changed. */
  function Staying(existing: seq<Node>, count: nat, known: Option<int>, stride: int): seq<Node> {
    if count > 0 && known != Some(stride) then [] else existing
  }

  datatype Placing = Placing(strides: map<nat, int>, polled: seq<seq<Node>>)

  function Known(strides: map<nat, int>, k: nat): Option<int> {
    if k in strides then Some(strides[k]) else None
  }

  /** The first `n` groups resized and placed. */
  function Place(node: Node, c: Component, n: nat, root: Values, w: World): Result<Placing, StrideError>
    requires n <= |c.polled| <= |node.polled|
    decreases n
  {
    if n == 0 then Ok(Placing(node.strides, node.polled))
    else
      var before := Place(node, c, n - 1, root, w);
      if before.Err? then Err(StrideError)
      else
        var k, p := n - 1, c.polled[n - 1];
        var count, stride := Wanted(p, k, node.counts), StrideOf(p, root);
        if count > 0 && stride <= 0 then Err(StrideError)
        else if |before.value.polled| <= k then Err(StrideError)
        else
          var existing := Staying(node.polled[k], count, Known(node.strides, k), stride);
          var strides := if count > 0 then before.value.strides[k := stride] else before.value.strides;
          if |existing| != count && k !in strides then Err(StrideError)
          else if |existing| == count then Ok(Placing(strides, before.value.polled[k := existing]))
          else Ok(Placing(strides, before.value.polled[k := Resized(existing, p, count, node.shift, strides[k], w)]))
  }

  function RefreshRun(run: seq<Node>, n: nat, c: Component, root: Values, w: World): Result<seq<Node>, StrideError>
    requires n <= |run|
    decreases c, 4, n
  {
    if n == 0 then Ok([])
    else
      var rest, last := RefreshRun(run, n - 1, c, root, w), Refresh(run[n - 1], c, root, w);
      if rest.Ok? && last.Ok? then Ok(rest.value + [last.value]) else Err(StrideError)
  }

  function RefreshStatics(node: Node, n: nat, c: Component, root: Values, w: World): Result<seq<seq<Node>>, StrideError>
    requires n <= |c.statics| <= |node.statics|
    decreases c, 1, n
  {
    if n == 0 then Ok([])
    else
      var run := node.statics[n - 1];
      var rest, last := RefreshStatics(node, n - 1, c, root, w), RefreshRun(run, |run|, c.statics[n - 1].component, root, w);
      if rest.Ok? && last.Ok? then Ok(rest.value + [last.value]) else Err(StrideError)
  }

  function RefreshPolled(polled: seq<seq<Node>>, n: nat, c: Component, root: Values, w: World): Result<seq<seq<Node>>, StrideError>
    requires n <= |c.polled| <= |polled|
    decreases c, 2, n
  {
    if n == 0 then Ok([])
    else
      var run := polled[n - 1];
      var rest, last := RefreshPolled(polled, n - 1, c, root, w), RefreshRun(run, |run|, c.polled[n - 1].component, root, w);
      if rest.Ok? && last.Ok? then Ok(rest.value + [last.value]) else Err(StrideError)
  }

  /** The second pass of a refresh (`_refresh_repeating_groups`), with the outermost component's values just read. */
  function Refresh(node: Node, c: Component, root: Values, w: World): Result<Node, StrideError>
    decreases c, 3
  {
    if |node.statics| < |c.statics| || |node.polled| < |c.polled| then Err(StrideError)
    else
      var statics, placing := RefreshStatics(node, |c.statics|, c, root, w), Place(node, c, |c.polled|, root, w);
      if statics.Err? || placing.Err? || |placing.value.polled| < |c.polled| then Err(StrideError)
      else
        var polled := RefreshPolled(placing.value.polled, |c.polled|, c, root, w);
        if polled.Err? then Err(StrideError)
        else Ok(node.(strides := placing.value.strides, statics := statics.value, polled := polled.value))
  }

  /** A whole update of the outermost component: read its plan, then resize. */
  function Update(node: Node, c: Component, w: World): Result<Node, StrideError> {
    var read := Read(node, c, w);
    Refresh(read, c, read.values, w)
  }

  // ----- the tree built in one go -----

  /** What a user sees of a tree: where each instance is and what it read. */
  datatype View = View(shift: int, values: Values, counts: map<nat, Option<int>>, statics: seq<seq<View>>, polled: seq<seq<View>>)

  function SeenRun(run: seq<Node>, c: Component): (views: seq<View>)
    ensures |views| == |run|
    decreases c, 1
  {
    seq(|run|, i requires 0 <= i < |run| => Seen(run[i], c))
  }

  function Seen(node: Node, c: Component): View
    decreases c, 0
  {
    View(node.shift, node.values, node.counts,
         seq(|c.statics|, k requires 0 <= k < |c.statics| => if k < |node.statics| then SeenRun(node.statics[k], c.statics[k].component) else []),
         seq(|c.polled|, k requires 0 <= k < |c.polled| => if k < |node.polled| then SeenRun(node.polled[k], c.polled[k].component) else []))
  }

  function IdealRun(c: Component, n: nat, shift: int, stride: int, root: Values, w: World): Result<seq<View>, StrideError>
    decreases c, 4, n
  {
    if n == 0 then Ok([])
    else
      var rest, last := IdealRun(c, n - 1, shift, stride, root, w), Ideal(c, shift + (n - 1) * stride, root, w);
      if rest.Ok? && last.Ok? then Ok(rest.value + [last.value]) else Err(StrideError)
  }

  function IdealStatics(c: Component, n: nat, shift: int, root: Values, w: World): Result<seq<seq<View>>, StrideError>
    requires n <= |c.statics|
    decreases c, 1, n
  {
    if n == 0 then Ok([])
    else
      var s := c.statics[n - 1];
      var rest, last := IdealStatics(c, n - 1, shift, root, w),
                        IdealRun(s.component, if s.count > 0 then s.count else 0, shift, s.stride, root, w);
      if rest.Ok? && last.Ok? then Ok(rest.value + [last.value]) else Err(StrideError)
  }

  function IdealPolled(c: Component, n: nat, shift: int, root: Values, w: World): Result<seq<seq<View>>, StrideError>
    requires n <= |c.polled|
    decreases c, 2, n
  {
    if n == 0 then Ok([])
    else
      var p := c.polled[n - 1];
      var count := Wanted(p, n - 1, ReadCounts(map[], c, |c.polled|, shift, w));
      var rest := IdealPolled(c, n - 1, shift, root, w);
      if rest.Err? || (count > 0 && StrideOf(p, root) <= 0) then Err(StrideError)
      else
        var last := IdealRun(p.component, count, shift, StrideOf(p, root), root, w);
        if last.Ok? then Ok(rest.value + [last.value]) else Err(StrideError)
  }

  /** The tree the device describes: every instance its counts give, where its strides put it, read once. */
  function Ideal(c: Component, shift: int, root: Values, w: World): Result<View, StrideError>
    decreases c, 3
  {
    var statics, polled := IdealStatics(c, |c.statics|, shift, root, w), IdealPolled(c, |c.polled|, shift, root, w);
    if statics.Ok? && polled.Ok? then
      Ok(View(shift, ReadFields(map[], c, |c.fields|, shift, w), ReadCounts(map[], c, |c.polled|, shift, w), statics.value, polled.value))
    else Err(StrideError)
  }

  // ----- what every run of updates keeps -----

  /** Instances one stride apart, each coherent. */
  ghost predicate CoherentRun(run: seq<Node>, c: Component, shift: int, stride: int)
    decreases c, 4
  {
    forall i {:trigger run[i]} :: 0 <= i < |run| ==> Coherent(run[i], c, shift + i * stride)
  }

  ghost predicate CoherentStatics(node: Node, c: Component, shift: int)
    requires |node.statics| == |c.statics|
    decreases c, 2
  {
    forall k {:trigger node.statics[k]} :: 0 <= k < |c.statics| ==>
      |node.statics[k]| == (if c.statics[k].count > 0 then c.statics[k].count else 0) &&
      CoherentRun(node.statics[k], c.statics[k].component, shift, c.statics[k].stride)
  }

  ghost predicate CoherentPolled(polled: seq<seq<Node>>, strides: map<nat, int>, c: Component, shift: int)
    requires |polled| == |c.polled|
    decreases c, 2
  {
    forall k {:trigger polled[k]} :: 0 <= k < |c.polled| && polled[k] != [] ==>
      k in strides && CoherentRun(polled[k], c.polled[k].component, shift, strides[k])
  }

  /** Nothing but the declared fields has a value, and nothing but the register counts has a count. */
  ghost predicate Declared(node: Node, c: Component) {
    && (forall name :: name in node.values ==> exists j {:trigger c.fields[j]} :: 0 <= j < |c.fields| && c.fields[j].name == name)
    && (forall k :: k in node.counts ==> k < |c.polled| && c.polled[k].count.Counted?)
  }

  /** A tree some run of updates may have left behind: instances in place, whatever they last read and however many. */
  ghost predicate Coherent(node: Node, c: Component, shift: int)
    decreases c, 3
  {
    && node.shift == shift && Declared(node, c)
    && |node.statics| == |c.statics| && |node.polled| == |c.polled|
    && CoherentStatics(node, c, shift)
    && CoherentPolled(node.polled, node.strides, c, shift)
  }

  /** The instance and everything below it has just been read. */
  ghost predicate Fresh(node: Node, c: Component, w: World)
    decreases c, 3
  {
    && node.values == ReadFields(map[], c, |c.fields|, node.shift, w)
    && node.counts == ReadCounts(map[], c, |c.polled|, node.shift, w)
    && |node.statics| == |c.statics| && |node.polled| == |c.polled|
    && FreshStatics(node, c, w)
    && FreshPolled(node.polled, c, w)
  }

  ghost predicate FreshStatics(node: Node, c: Component, w: World)
    requires |node.statics| == |c.statics|
    decreases c, 2
  {
    forall k {:trigger node.statics[k]} :: 0 <= k < |c.statics| ==> FreshRun(node.statics[k], c.statics[k].component, w)
  }

  ghost predicate FreshPolled(polled: seq<seq<Node>>, c: Component, w: World)
    requires |polled| == |c.polled|
    decreases c, 2
  {
    forall k {:trigger polled[k]} :: 0 <= k < |c.polled| ==> FreshRun(polled[k], c.polled[k].component, w)
  }

  ghost predicate FreshRun(run: seq<Node>, c: Component, w: World)
    decreases c, 4
  {
    forall i {:trigger run[i]} :: 0 <= i < |run| ==> Fresh(run[i], c, w)
  }

  // ----- building and reading -----

  lemma {:induction false} BuiltIsCoherent(c: Component, shift: int)
    ensures Coherent(Build(c, shift), c, shift)
    decreases c, 0
  {
    var node := Build(c, shift);
    assert CoherentPolled(node.polled, node.strides, c, shift);
    forall k {:trigger node.statics[k]} | 0 <= k < |c.statics|
      ensures CoherentRun(node.statics[k], c.statics[k].component, shift, c.statics[k].stride)
    {
      BuiltRunIsCoherent(c.statics[k].component, shift, c.statics[k].stride, 0, c.statics[k].count);
    }
  }

  lemma {:induction false} BuiltRunIsCoherent(c: Component, shift: int, stride: int, start: nat, stop: int)
    ensures CoherentRun(BuildRun(c, shift, stride, start, stop), c, shift + start * stride, stride)
    decreases c, 1
  {
    hide Coherent;
    var run := BuildRun(c, shift, stride, start, stop);
    forall i {:trigger run[i]} | 0 <= i < |run| ensures Coherent(run[i], c, shift + start * stride + i * stride) {
      assert (start + i) * stride == start * stride + i * stride;
      BuiltIsCoherent(c, shift + (start + i) * stride);
    }
  }

  lemma {:induction false} ReadForgets(was: Values, c: Component, n: nat, shift: int, w: World)
    requires n <= |c.fields|
    ensures forall name :: name in ReadFields(was, c, n, shift, w) <==>
      name in was || exists j {:trigger c.fields[j]} :: 0 <= j < n && c.fields[j].name == name
    ensures forall name :: name in ReadFields(map[], c, n, shift, w) ==>
      name in ReadFields(was, c, n, shift, w) && ReadFields(was, c, n, shift, w)[name] == ReadFields(map[], c, n, shift, w)[name]
    decreases n
  {
    hide ValueOf;
    if n > 0 { ReadForgets(was, c, n - 1, shift, w); ReadForgets(map[], c, n - 1, shift, w); }
  }

  lemma {:induction false} CountsForget(was: map<nat, Option<int>>, c: Component, n: nat, shift: int, w: World)
    requires n <= |c.polled|
    ensures forall k :: k in ReadCounts(was, c, n, shift, w) <==> k in was || (0 <= k < n && c.polled[k].count.Counted?)
    ensures forall k :: k in ReadCounts(map[], c, n, shift, w) ==>
      k in ReadCounts(was, c, n, shift, w) && ReadCounts(was, c, n, shift, w)[k] == ReadCounts(map[], c, n, shift, w)[k]
    decreases n
  {
    hide CountOf;
    if n > 0 { CountsForget(was, c, n - 1, shift, w); CountsForget(map[], c, n - 1, shift, w); }
  }

  /** Whatever an instance held, reading it leaves what the device holds now. */
  lemma OwnValues(node: Node, c: Component, w: World)
    requires Declared(node, c)
    ensures ReadFields(node.values, c, |c.fields|, node.shift, w) == ReadFields(map[], c, |c.fields|, node.shift, w)
    ensures ReadCounts(node.counts, c, |c.polled|, node.shift, w) == ReadCounts(map[], c, |c.polled|, node.shift, w)
    ensures Declared(Read(node, c, w), c)
  {
    hide ReadFields, ReadCounts;
    ReadForgets(node.values, c, |c.fields|, node.shift, w);
    ReadForgets(map[], c, |c.fields|, node.shift, w);
    CountsForget(node.counts, c, |c.polled|, node.shift, w);
    CountsForget(map[], c, |c.polled|, node.shift, w);
  }

  lemma {:induction false} ReadIsFresh(node: Node, c: Component, shift: int, w: World)
    requires Coherent(node, c, shift)
    ensures Coherent(Read(node, c, w), c, shift) && Fresh(Read(node, c, w), c, w)
    decreases c, 0
  {
    hide CoherentRun, FreshRun, ReadFields, ReadCounts, Declared;
    var now := Read(node, c, w);
    OwnValues(node, c, w);
    forall k {:trigger now.statics[k]} | 0 <= k < |c.statics|
      ensures |now.statics[k]| == |node.statics[k]|
      ensures CoherentRun(now.statics[k], c.statics[k].component, shift, c.statics[k].stride)
      ensures FreshRun(now.statics[k], c.statics[k].component, w)
    {
      assert |node.statics[k]| >= 0;
      ReadRunIsFresh(node.statics[k], c.statics[k].component, shift, c.statics[k].stride, w);
    }
    forall k {:trigger now.polled[k]} | 0 <= k < |c.polled|
      ensures now.polled[k] != [] ==> k in node.strides && CoherentRun(now.polled[k], c.polled[k].component, shift, node.strides[k])
      ensures FreshRun(now.polled[k], c.polled[k].component, w)
    {
      if node.polled[k] != [] {
        ReadRunIsFresh(node.polled[k], c.polled[k].component, shift, node.strides[k], w);
      } else {
        assert now.polled[k] == [];
        NoneIsFresh(c.polled[k].component, w);
      }
    }
  }

  lemma NoneIsFresh(c: Component, w: World)
    ensures FreshRun([], c, w)
  {
  }

  lemma {:induction false} ReadRunIsFresh(run: seq<Node>, c: Component, shift: int, stride: int, w: World)
    requires CoherentRun(run, c, shift, stride)
    ensures CoherentRun(ReadRun(run, c, w), c, shift, stride) && FreshRun(ReadRun(run, c, w), c, w)
    decreases c, 1
  {
    hide Coherent, Fresh, Read;
    var now := ReadRun(run, c, w);
    forall i {:trigger now[i]} | 0 <= i < |now| ensures Coherent(now[i], c, shift + i * stride) && Fresh(now[i], c, w) {
      assert Coherent(run[i], c, shift + i * stride);
      ReadIsFresh(run[i], c, shift + i * stride, w);
    }
  }

  // ----- resizing -----

  /** A group resized and placed: as many instances as wanted, where its stride puts them, all just read. */
  ghost predicate GroupPlaced(run: seq<Node>, strides: map<nat, int>, c: Component, k: nat, counts: map<nat, Option<int>>,
                              shift: int, root: Values, w: World)
    requires k < |c.polled|
  {
    var p := c.polled[k];
    && |run| == Wanted(p, k, counts)
    && FreshRun(run, p.component, w)
    && (run != [] ==> StrideOf(p, root) > 0 && k in strides && strides[k] == StrideOf(p, root) &&
                      CoherentRun(run, p.component, shift, strides[k]))
  }

  /** A group the loop has not come to yet. */
  ghost predicate GroupUntouched(p: Placing, node: Node, k: nat)
    requires k < |p.polled| == |node.polled|
  {
    p.polled[k] == node.polled[k] && Known(p.strides, k) == Known(node.strides, k)
  }

  ghost predicate PlacedSoFar(p: Placing, node: Node, c: Component, n: nat, shift: int, root: Values, w: World) {
    && |p.polled| == |c.polled| == |node.polled|
    && (forall k {:trigger p.polled[k]} :: 0 <= k < n && k < |c.polled| ==>
        GroupPlaced(p.polled[k], p.strides, c, k, node.counts, shift, root, w))
    && (forall k :: n <= k < |c.polled| ==> GroupUntouched(p, node, k))
  }

  lemma ResizedIsPlaced(existing: seq<Node>, p: Polled, count: nat, shift: int, stride: int, w: World)
    requires CoherentRun(existing, p.component, shift, stride) && FreshRun(existing, p.component, w)
    ensures var now := Resized(existing, p, count, shift, stride, w);
      |now| == count && CoherentRun(now, p.component, shift, stride) && FreshRun(now, p.component, w)
  {
    hide Coherent, Fresh, BuildRun, ReadRun;
    var now := Resized(existing, p, count, shift, stride, w);
    if |existing| < count {
      var start := |existing|;
      var built := BuildRun(p.component, shift, stride, start, count);
      BuiltRunIsCoherent(p.component, shift, stride, start, count);
      ReadRunIsFresh(built, p.component, shift + start * stride, stride, w);
      var read := ReadRun(built, p.component, w);
      forall i {:trigger now[i]} | 0 <= i < |now|
        ensures Coherent(now[i], p.component, shift + i * stride) && Fresh(now[i], p.component, w)
      {
        if i < start {
          assert now[i] == existing[i];
        } else {
          assert now[i] == read[i - start];
          Shifts(start, i, stride);
        }
      }
    } else {
      forall i {:trigger now[i]} | 0 <= i < |now|
        ensures Coherent(now[i], p.component, shift + i * stride) && Fresh(now[i], p.component, w)
      {
        assert now[i] == existing[i];
      }
    }
  }

  lemma Shifts(start: int, i: int, stride: int)
    ensures start * stride + (i - start) * stride == i * stride
  {
  }

  /** One group of the loop. */
  lemma GroupIsPlaced(existing: seq<Node>, strides: map<nat, int>, c: Component, k: nat, counts: map<nat, Option<int>>,
                      shift: int, root: Values, w: World)
    requires k < |c.polled| && FreshRun(existing, c.polled[k].component, w)
    requires existing != [] ==> k in strides && CoherentRun(existing, c.polled[k].component, shift, strides[k])
    requires Wanted(c.polled[k], k, counts) > 0 ==> StrideOf(c.polled[k], root) > 0
    ensures var p := c.polled[k];
      var count, stride := Wanted(p, k, counts), StrideOf(p, root);
      var staying := Staying(existing, count, Known(strides, k), stride);
      var now := if count > 0 then strides[k := stride] else strides;
      && (|staying| != count ==> k in now)
      && (|staying| == count ==> GroupPlaced(staying, now, c, k, counts, shift, root, w))
      && (|staying| != count ==> GroupPlaced(Resized(staying, p, count, shift, now[k], w), now, c, k, counts, shift, root, w))
  {
    hide Wanted, StrideOf, CoherentRun, FreshRun;
    var p := c.polled[k];
    var count, stride := Wanted(p, k, counts), StrideOf(p, root);
    var staying := Staying(existing, count, Known(strides, k), stride);
    var now := if count > 0 then strides[k := stride] else strides;
    if staying == [] {
      NoneIsFresh(p.component, w);
      NoneIsCoherent(p.component, shift, stride);
    }
    if |staying| != count { ResizedIsPlaced(staying, p, count, shift, now[k], w); }
  }

  lemma NoneIsCoherent(c: Component, shift: int, stride: int)
    ensures CoherentRun([], c, shift, stride)
  {
  }

  /** The loop over poll-time groups ends with each as large and where it should be; it fails just where a stride is not positive. */
  lemma {:induction false} PlacesGroups(node: Node, c: Component, n: nat, shift: int, root: Values, w: World)
    requires n <= |c.polled| && Coherent(node, c, shift) && Fresh(node, c, w)
    ensures Place(node, c, n, root, w).Ok? ==> PlacedSoFar(Place(node, c, n, root, w).value, node, c, n, shift, root, w)
    ensures Place(node, c, n, root, w).Err? <==>
      exists k {:trigger c.polled[k]} :: 0 <= k < n && Wanted(c.polled[k], k, node.counts) > 0 && StrideOf(c.polled[k], root) <= 0
    decreases n
  {
    hide Wanted, StrideOf, CoherentRun, FreshRun, GroupPlaced, Resized, Staying, CoherentStatics, FreshStatics, Declared, ReadFields, ReadCounts;
    if n > 0 {
      PlacesGroups(node, c, n - 1, shift, root, w);
      var before := Place(node, c, n - 1, root, w);
      var k := n - 1;
      if before.Ok? && !(Wanted(c.polled[k], k, node.counts) > 0 && StrideOf(c.polled[k], root) <= 0) {
        assert GroupUntouched(before.value, node, k);
        GroupIsPlaced(node.polled[k], before.value.strides, c, k, node.counts, shift, root, w);
        PlacingStep(node, c, n, shift, root, w);
      }
    }
  }

  /** Placing one more group leaves the others as they were. */
  lemma PlacingStep(node: Node, c: Component, n: nat, shift: int, root: Values, w: World)
    requires 0 < n <= |c.polled| == |node.polled|
    requires Place(node, c, n - 1, root, w).Ok? && PlacedSoFar(Place(node, c, n - 1, root, w).value, node, c, n - 1, shift, root, w)
    requires Wanted(c.polled[n - 1], n - 1, node.counts) > 0 ==> StrideOf(c.polled[n - 1], root) > 0
    requires var k, p := n - 1, c.polled[n - 1];
      var strides := Place(node, c, n - 1, root, w).value.strides;
      var count, stride := Wanted(p, k, node.counts), StrideOf(p, root);
      var staying := Staying(node.polled[k], count, Known(strides, k), stride);
      var now := if count > 0 then strides[k := stride] else strides;
      && (|staying| != count ==> k in now)
      && (|staying| == count ==> GroupPlaced(staying, now, c, k, node.counts, shift, root, w))
      && (|staying| != count ==> GroupPlaced(Resized(staying, p, count, shift, now[k], w), now, c, k, node.counts, shift, root, w))
      && Known(strides, k) == Known(node.strides, k)
    requires node.shift == shift
    ensures Place(node, c, n, root, w).Ok? && PlacedSoFar(Place(node, c, n, root, w).value, node, c, n, shift, root, w)
  {
    hide Wanted, StrideOf, Resized, Staying, CoherentRun, FreshRun;
    var k, before := n - 1, Place(node, c, n - 1, root, w).value;
    var now := Place(node, c, n, root, w).value;
    forall j {:trigger now.polled[j]} | 0 <= j < n && j < |c.polled|
      ensures GroupPlaced(now.polled[j], now.strides, c, j, node.counts, shift, root, w)
    {
      if j < k {
        assert GroupPlaced(before.polled[j], before.strides, c, j, node.counts, shift, root, w);
        assert now.polled[j] == before.polled[j];
        assert j in before.strides ==> j in now.strides && now.strides[j] == before.strides[j];
      } else {
        assert j == k;
      }
    }
    forall j | n <= j < |c.polled| ensures GroupUntouched(now, node, j) {
      assert GroupUntouched(before, node, j);
      assert now.polled[j] == before.polled[j];
    }
  }

  // ----- incremental refresh equals building in one go -----

  /** What a refresh makes of an instance agrees with what the device describes. */
  ghost predicate Agrees(now: Result<Node, StrideError>, ideal: Result<View, StrideError>, c: Component, shift: int) {
    && (now.Ok? <==> ideal.Ok?)
    && (now.Ok? ==> Seen(now.value, c) == ideal.value && Coherent(now.value, c, shift))
  }

  ghost predicate RunAgrees(now: Result<seq<Node>, StrideError>, ideal: Result<seq<View>, StrideError>, c: Component, shift: int, stride: int, n: nat) {
    && (now.Ok? <==> ideal.Ok?)
    && (now.Ok? ==> |now.value| == n && SeenRun(now.value, c) == ideal.value && CoherentRun(now.value, c, shift, stride))
  }

  lemma {:induction false} RunIsIdeal(run: seq<Node>, n: nat, c: Component, shift: int, stride: int, root: Values, w: World)
    requires n <= |run| && CoherentRun(run, c, shift, stride) && FreshRun(run, c, w)
    ensures RunAgrees(RefreshRun(run, n, c, root, w), IdealRun(c, n, shift, stride, root, w), c, shift, stride, n)
    decreases c, 4, n
  {
    hide Refresh, Ideal, Coherent, Fresh, Seen;
    if n > 0 {
      RunIsIdeal(run, n - 1, c, shift, stride, root, w);
      assert Coherent(run[n - 1], c, shift + (n - 1) * stride) && Fresh(run[n - 1], c, w);
      RefreshIsIdeal(run[n - 1], c, shift + (n - 1) * stride, root, w);
      var rest, last := RefreshRun(run, n - 1, c, root, w), Refresh(run[n - 1], c, root, w);
      if rest.Ok? && last.Ok? {
        Appended(rest.value, last.value, c, shift, stride);
      }
    }
  }

  lemma Appended(rest: seq<Node>, last: Node, c: Component, shift: int, stride: int)
    requires CoherentRun(rest, c, shift, stride) && Coherent(last, c, shift + |rest| * stride)
    ensures CoherentRun(rest + [last], c, shift, stride)
    ensures SeenRun(rest + [last], c) == SeenRun(rest, c) + [Seen(last, c)]
  {
    hide Coherent, Seen;
    var now := rest + [last];
    forall i {:trigger now[i]} | 0 <= i < |now| ensures Coherent(now[i], c, shift + i * stride) {
      if i < |rest| { assert now[i] == rest[i]; }
    }
  }

  lemma {:induction false} NoRun(c: Component, shift: int, stride: int, root: Values, w: World)
    ensures RunAgrees(RefreshRun([], 0, c, root, w), IdealRun(c, 0, shift, stride, root, w), c, shift, stride, 0)
  {
  }

  /** Each of the first `n` fixed groups agrees. */
  ghost predicate StaticsAgree(now: seq<seq<Node>>, ideal: seq<seq<View>>, c: Component, n: nat, shift: int)
    requires n <= |c.statics|
  {
    && |now| == |ideal| == n
    && (forall k :: 0 <= k < n ==> SeenRun(now[k], c.statics[k].component) == ideal[k])
    && (forall k :: 0 <= k < n ==> |now[k]| == (if c.statics[k].count > 0 then c.statics[k].count else 0))
    && (forall k :: 0 <= k < n ==> CoherentRun(now[k], c.statics[k].component, shift, c.statics[k].stride))
  }

  lemma {:induction false} StaticsAreIdeal(node: Node, n: nat, c: Component, shift: int, root: Values, w: World)
    requires n <= |c.statics| == |node.statics| && CoherentStatics(node, c, shift) && FreshStatics(node, c, w)
    ensures RefreshStatics(node, n, c, root, w).Ok? <==> IdealStatics(c, n, shift, root, w).Ok?
    ensures RefreshStatics(node, n, c, root, w).Ok? ==>
      StaticsAgree(RefreshStatics(node, n, c, root, w).value, IdealStatics(c, n, shift, root, w).value, c, n, shift)
    decreases c, 1, n
  {
    hide RefreshRun, IdealRun, CoherentRun, FreshRun, SeenRun;
    if n > 0 {
      StaticsAreIdeal(node, n - 1, c, shift, root, w);
      var k := n - 1;
      var s := c.statics[k];
      assert CoherentRun(node.statics[k], s.component, shift, s.stride) && FreshRun(node.statics[k], s.component, w);
      RunIsIdeal(node.statics[k], |node.statics[k]|, s.component, shift, s.stride, root, w);
    }
  }

  /** Each of the first `n` poll-time groups agrees, and can be resized again. */
  ghost predicate PolledAgree(now: seq<seq<Node>>, ideal: seq<seq<View>>, strides: map<nat, int>, c: Component, n: nat, shift: int)
    requires n <= |c.polled|
  {
    && |now| == |ideal| == n
    && (forall k :: 0 <= k < n ==> SeenRun(now[k], c.polled[k].component) == ideal[k])
    && (forall k :: 0 <= k < n && now[k] != [] ==> k in strides && CoherentRun(now[k], c.polled[k].component, shift, strides[k]))
  }

  lemma {:induction false} PolledAreIdeal(polled: seq<seq<Node>>, strides: map<nat, int>, counts: map<nat, Option<int>>, n: nat,
                                          c: Component, shift: int, root: Values, w: World)
    requires n <= |c.polled| == |polled| && counts == ReadCounts(map[], c, |c.polled|, shift, w)
    requires forall k {:trigger polled[k]} :: 0 <= k < |c.polled| ==> GroupPlaced(polled[k], strides, c, k, counts, shift, root, w)
    ensures RefreshPolled(polled, n, c, root, w).Ok? <==> IdealPolled(c, n, shift, root, w).Ok?
    ensures RefreshPolled(polled, n, c, root, w).Ok? ==>
      PolledAgree(RefreshPolled(polled, n, c, root, w).value, IdealPolled(c, n, shift, root, w).value, strides, c, n, shift)
    decreases c, 2, n
  {
    hide RefreshRun, IdealRun, CoherentRun, FreshRun, SeenRun, Wanted, StrideOf, ReadCounts;
    if n > 0 {
      PolledAreIdeal(polled, strides, counts, n - 1, c, shift, root, w);
      var k := n - 1;
      var p, run := c.polled[k], polled[k];
      assert GroupPlaced(run, strides, c, k, counts, shift, root, w);
      if run == [] {
        NoRun(p.component, shift, StrideOf(p, root), root, w);
      } else {
        RunIsIdeal(run, |run|, p.component, shift, strides[k], root, w);
      }
    }
  }

  /** A group wanted with a stride that is not positive has no ideal. */
  lemma {:induction false} BadStrideHasNoIdeal(c: Component, n: nat, k: nat, shift: int, root: Values, w: World)
    requires k < n <= |c.polled|
    requires Wanted(c.polled[k], k, ReadCounts(map[], c, |c.polled|, shift, w)) > 0 && StrideOf(c.polled[k], root) <= 0
    ensures IdealPolled(c, n, shift, root, w).Err?
    decreases n
  {
    hide IdealRun, Wanted, StrideOf, ReadCounts;
    if k < n - 1 { BadStrideHasNoIdeal(c, n - 1, k, shift, root, w); }
  }

  /** Refreshing a tree that has just been read makes it what the device describes. */
  lemma {:induction false} RefreshIsIdeal(node: Node, c: Component, shift: int, root: Values, w: World)
    requires Coherent(node, c, shift) && Fresh(node, c, w)
    ensures Agrees(Refresh(node, c, root, w), Ideal(c, shift, root, w), c, shift)
    decreases c, 3
  {
    hide RefreshStatics, RefreshPolled, IdealStatics, IdealPolled, Place, CoherentRun, FreshRun, ReadFields, ReadCounts, SeenRun,
         Wanted, StrideOf, GroupPlaced, Declared;
    StaticsAreIdeal(node, |c.statics|, c, shift, root, w);
    PlacesGroups(node, c, |c.polled|, shift, root, w);
    var placing := Place(node, c, |c.polled|, root, w);
    if placing.Err? {
      var k :| 0 <= k < |c.polled| && Wanted(c.polled[k], k, node.counts) > 0 && StrideOf(c.polled[k], root) <= 0;
      BadStrideHasNoIdeal(c, |c.polled|, k, shift, root, w);
    } else {
      PolledAreIdeal(placing.value.polled, placing.value.strides, node.counts, |c.polled|, c, shift, root, w);
      var now := Refresh(node, c, root, w);
      if now.Ok? {
        RefreshedIsSeen(node, now.value, IdealStatics(c, |c.statics|, shift, root, w).value, IdealPolled(c, |c.polled|, shift, root, w).value, c, shift);
      }
    }
  }

  lemma RefreshedIsSeen(node: Node, now: Node, statics: seq<seq<View>>, polled: seq<seq<View>>, c: Component, shift: int)
    requires node.shift == shift == now.shift && Declared(node, c)
    requires now.values == node.values && now.counts == node.counts
    requires StaticsAgree(now.statics, statics, c, |c.statics|, shift)
    requires PolledAgree(now.polled, polled, now.strides, c, |c.polled|, shift)
    ensures Seen(now, c) == View(shift, node.values, node.counts, statics, polled)
    ensures Coherent(now, c, shift)
  {
    hide CoherentRun, SeenRun;
    assert Declared(now, c);
    var seen := Seen(now, c);
    assert forall k :: 0 <= k < |c.statics| ==> seen.statics[k] == statics[k];
    assert forall k :: 0 <= k < |c.polled| ==> seen.polled[k] == polled[k];
  }

  /** The values every refresh of the outermost component places its groups by. */
  function RootValues(c: Component, w: World): Values {
    ReadFields(map[], c, |c.fields|, 0, w)
  }

  /**
   Incremental refresh equals rebuild: one update from any coherent tree, whatever
   counts, strides and values earlier updates left in it, yields the instances,
   offsets and values the device describes, which is also what updating a freshly
   built component yields; and the result is coherent again.
   */
  lemma UpdateIsRebuild(node: Node, c: Component, w: World)
    requires Coherent(node, c, 0)
    ensures Agrees(Update(node, c, w), Ideal(c, 0, RootValues(c, w), w), c, 0)
    ensures Agrees(Update(Build(c, 0), c, w), Ideal(c, 0, RootValues(c, w), w), c, 0)
  {
    hide Coherent, Fresh, Refresh, Ideal, ReadFields;
    BuiltIsCoherent(c, 0);
    ReadIsFresh(node, c, 0, w);
    ReadIsFresh(Build(c, 0), c, 0, w);
    ReadValues(node, c, 0, w);
    ReadValues(Build(c, 0), c, 0, w);
    RefreshIsIdeal(Read(node, c, w), c, 0, RootValues(c, w), w);
    RefreshIsIdeal(Read(Build(c, 0), c, w), c, 0, RootValues(c, w), w);
  }

  lemma ReadValues(node: Node, c: Component, shift: int, w: World)
    requires Coherent(node, c, shift)
    ensures Read(node, c, w).values == ReadFields(map[], c, |c.fields|, shift, w)
  {
    hide ReadFields, ReadCounts, CoherentStatics, CoherentPolled;
    OwnValues(node, c, w);
  }

  /** A run of updates against a device that may change in between; it ends at the first that fails. */
  function UpdateAll(node: Node, c: Component, worlds: seq<World>): Result<Node, StrideError>
    decreases |worlds|
  {
    if worlds == [] then Ok(node)
    else
      var before := UpdateAll(node, c, worlds[..|worlds| - 1]);
      if before.Ok? then Update(before.value, c, worlds[|worlds| - 1]) else before
  }

  /** After any run of updates that succeed, the component is what the device last described. */
  lemma {:induction false} AnyRunEndsIdeal(c: Component, worlds: seq<World>)
    requires UpdateAll(Build(c, 0), c, worlds).Ok?
    ensures Coherent(UpdateAll(Build(c, 0), c, worlds).value, c, 0)
    ensures worlds != [] ==>
      var w := worlds[|worlds| - 1];
      Ideal(c, 0, RootValues(c, w), w) == Ok(Seen(UpdateAll(Build(c, 0), c, worlds).value, c))
    decreases |worlds|
  {
    hide Coherent, Ideal, Update, Build;
    if worlds == [] {
      BuiltIsCoherent(c, 0);
    } else {
      var n := |worlds| - 1;
      AnyRunEndsIdeal(c, worlds[..n]);
      UpdateIsRebuild(UpdateAll(Build(c, 0), c, worlds[..n]).value, c, worlds[n]);
    }
  }

  // ----- which instances survive -----

  /** No listener on the instance or below it: it was built since. */
  ghost predicate Unheard(node: Node, c: Component)
    decreases c, 3
  {
    && node.listeners == {}
    && (forall k :: 0 <= k < |c.statics| && k < |node.statics| ==> UnheardRun(node.statics[k], c.statics[k].component))
    && (forall k :: 0 <= k < |c.polled| && k < |node.polled| ==> UnheardRun(node.polled[k], c.polled[k].component))
  }

  ghost predicate UnheardRun(run: seq<Node>, c: Component)
    decreases c, 4
  {
    forall i {:trigger run[i]} :: 0 <= i < |run| ==> Unheard(run[i], c)
  }

  /**
   The instance survived: it has its listeners, and so have its fixed instances and,
   in each poll-time group that did not move, those of its instances that are still
   wanted. Every other instance is new.
   */
  ghost predicate Kept(was: Node, now: Node, c: Component)
    decreases c, 3
  {
    && now.listeners == was.listeners
    && |was.statics| == |now.statics| == |c.statics| && |was.polled| == |now.polled| == |c.polled|
    && (forall k :: 0 <= k < |c.statics| ==> |was.statics[k]| == |now.statics[k]| && KeptRun(was.statics[k], now.statics[k], c.statics[k].component))
    && (forall k :: 0 <= k < |c.polled| ==>
        if now.polled[k] != [] && Known(was.strides, k) != Known(now.strides, k) then UnheardRun(now.polled[k], c.polled[k].component)
        else KeptRun(was.polled[k], now.polled[k], c.polled[k].component))
  }

  ghost predicate KeptRun(was: seq<Node>, now: seq<Node>, c: Component)
    decreases c, 4
  {
    forall i {:trigger now[i]} :: 0 <= i < |now| ==> if i < |was| then Kept(was[i], now[i], c) else Unheard(now[i], c)
  }

  /** The group the loop leaves behind. */
  function GroupNow(node: Node, c: Component, k: nat, root: Values, w: World): seq<Node>
    requires k < |c.polled| == |node.polled|
  {
    var p := c.polled[k];
    var count, stride := Wanted(p, k, node.counts), StrideOf(p, root);
    Resized(Staying(node.polled[k], count, Known(node.strides, k), stride), p, count, node.shift, stride, w)
  }

  lemma {:induction false} PlaceGives(node: Node, c: Component, n: nat, k: nat, shift: int, root: Values, w: World)
    requires k < n <= |c.polled| && Coherent(node, c, shift) && Place(node, c, n, root, w).Ok?
    ensures |Place(node, c, n, root, w).value.polled| == |c.polled|
    ensures Place(node, c, n, root, w).value.polled[k] == GroupNow(node, c, k, root, w)
    ensures Known(Place(node, c, n, root, w).value.strides, k) ==
            if Wanted(c.polled[k], k, node.counts) > 0 then Some(StrideOf(c.polled[k], root)) else Known(node.strides, k)
    decreases n
  {
    hide Wanted, StrideOf, CoherentStatics, CoherentPolled, Declared, Resized;
    PlaceLength(node, c, n - 1, root, w);
    if k < n - 1 {
      PlaceGives(node, c, n - 1, k, shift, root, w);
    } else {
      LaterStrides(node, c, n - 1, k, root, w);
      var p := c.polled[k];
      ResizedTo(Staying(node.polled[k], Wanted(p, k, node.counts), Known(node.strides, k), StrideOf(p, root)), p,
                Wanted(p, k, node.counts), node.shift, StrideOf(p, root), w);
    }
  }

  /** Resizing to the size a group has, or to none, does not depend on the stride. */
  lemma ResizedTo(existing: seq<Node>, p: Polled, count: nat, shift: int, stride: int, w: World)
    ensures |existing| == count ==> Resized(existing, p, count, shift, stride, w) == existing
    ensures count == 0 ==> forall other :: Resized(existing, p, count, shift, other, w) == []
  {
  }

  lemma {:induction false} PlaceLength(node: Node, c: Component, n: nat, root: Values, w: World)
    requires n <= |c.polled| == |node.polled| && Place(node, c, n, root, w).Ok?
    ensures |Place(node, c, n, root, w).value.polled| == |c.polled|
    decreases n
  {
    hide Wanted, StrideOf, Resized, Staying;
    if n > 0 { PlaceLength(node, c, n - 1, root, w); }
  }

  lemma {:induction false} LaterStrides(node: Node, c: Component, n: nat, k: nat, root: Values, w: World)
    requires n <= k < |c.polled| == |node.polled| && Place(node, c, n, root, w).Ok?
    ensures Known(Place(node, c, n, root, w).value.strides, k) == Known(node.strides, k)
    decreases n
  {
    hide Wanted, StrideOf, Resized, Staying;
    if n > 0 { LaterStrides(node, c, n - 1, k, root, w); }
  }

  lemma {:induction false} BuiltUnheard(c: Component, shift: int, w: World)
    ensures Unheard(Read(Build(c, shift), c, w), c)
    decreases c, 0
  {
    hide ReadFields, ReadCounts, UnheardRun;
    var node := Build(c, shift);
    var read := Read(node, c, w);
    forall k | 0 <= k < |c.statics| ensures UnheardRun(read.statics[k], c.statics[k].component) {
      var s := c.statics[k];
      assert read.statics[k] == ReadRun(BuildRun(s.component, shift, s.stride, 0, s.count), s.component, w);
      BuiltRunUnheard(s.component, shift, s.stride, 0, s.count, w);
    }
    forall k | 0 <= k < |c.polled| ensures UnheardRun(read.polled[k], c.polled[k].component) {
      assert read.polled[k] == [];
      NoneUnheard(c.polled[k].component);
    }
  }

  lemma NoneUnheard(c: Component)
    ensures UnheardRun([], c)
  {
  }

  lemma {:induction false} BuiltRunUnheard(c: Component, shift: int, stride: int, start: nat, stop: int, w: World)
    ensures UnheardRun(ReadRun(BuildRun(c, shift, stride, start, stop), c, w), c)
    decreases c, 1
  {
    hide Unheard, Build, Read;
    var run := BuildRun(c, shift, stride, start, stop);
    var read := ReadRun(run, c, w);
    forall i {:trigger read[i]} | 0 <= i < |read| ensures Unheard(read[i], c) {
      assert run[i] == Build(c, shift + (start + i) * stride);
      BuiltUnheard(c, shift + (start + i) * stride, w);
    }
  }

  /** The elements of a refreshed run. */
  lemma {:induction false} RunRefreshed(run: seq<Node>, n: nat, c: Component, root: Values, w: World)
    requires n <= |run| && RefreshRun(run, n, c, root, w).Ok?
    ensures |RefreshRun(run, n, c, root, w).value| == n
    ensures forall i {:trigger run[i]} :: 0 <= i < n ==>
      Refresh(run[i], c, root, w) == Ok(RefreshRun(run, n, c, root, w).value[i])
    decreases n
  {
    hide Refresh;
    if n > 0 { RunRefreshed(run, n - 1, c, root, w); }
  }

  lemma {:induction false} StaticsRefreshed(node: Node, n: nat, c: Component, root: Values, w: World)
    requires n <= |c.statics| <= |node.statics| && RefreshStatics(node, n, c, root, w).Ok?
    ensures |RefreshStatics(node, n, c, root, w).value| == n
    ensures forall k :: 0 <= k < n ==>
      RefreshRun(node.statics[k], |node.statics[k]|, c.statics[k].component, root, w) == Ok(RefreshStatics(node, n, c, root, w).value[k])
    decreases n
  {
    hide RefreshRun;
    if n > 0 { StaticsRefreshed(node, n - 1, c, root, w); }
  }

  lemma {:induction false} PolledRefreshed(polled: seq<seq<Node>>, n: nat, c: Component, root: Values, w: World)
    requires n <= |c.polled| <= |polled| && RefreshPolled(polled, n, c, root, w).Ok?
    ensures |RefreshPolled(polled, n, c, root, w).value| == n
    ensures forall k :: 0 <= k < n ==>
      RefreshRun(polled[k], |polled[k]|, c.polled[k].component, root, w) == Ok(RefreshPolled(polled, n, c, root, w).value[k])
    decreases n
  {
    hide RefreshRun;
    if n > 0 { PolledRefreshed(polled, n - 1, c, root, w); }
  }

  /** Two runs refreshed side by side: `now` from `mid`, where `mid` holds survivors of `was` and new instances. */
  lemma {:induction false} RunKeeps(was: seq<Node>, mid: seq<Node>, now: seq<Node>, c: Component, shift: int, stride: int, root: Values, w: World)
    requires RefreshRun(mid, |mid|, c, root, w) == Ok(now)
    requires CoherentRun(mid, c, shift, stride) && FreshRun(mid, c, w)
    requires forall i {:trigger mid[i]} :: 0 <= i < |mid| ==> if i < |was| then mid[i] == was[i] else Unheard(mid[i], c)
    ensures |now| == |mid| && KeptRun(was, now, c)
    decreases c, 4
  {
    hide Refresh, Kept, Unheard, Coherent, Fresh;
    RunRefreshed(mid, |mid|, c, root, w);
    forall i {:trigger now[i]} | 0 <= i < |now| ensures if i < |was| then Kept(was[i], now[i], c) else Unheard(now[i], c) {
      assert Coherent(mid[i], c, shift + i * stride) && Fresh(mid[i], c, w) && Refresh(mid[i], c, root, w) == Ok(now[i]);
      RefreshKeeps(mid[i], c, shift + i * stride, root, w);
      if i >= |was| { NewStaysNew(mid[i], now[i], c); }
    }
  }

  /** What survives of a tree with no listeners has none. */
  lemma {:induction false} NewStaysNew(was: Node, now: Node, c: Component)
    requires Kept(was, now, c) && Unheard(was, c)
    ensures Unheard(now, c)
    decreases c, 3
  {
    hide KeptRun, UnheardRun;
    forall k | 0 <= k < |c.statics| ensures UnheardRun(now.statics[k], c.statics[k].component) {
      assert UnheardRun(was.statics[k], c.statics[k].component) && |was.statics[k]| == |now.statics[k]|;
      RunStaysNew(was.statics[k], now.statics[k], c.statics[k].component);
    }
    forall k | 0 <= k < |c.polled| ensures UnheardRun(now.polled[k], c.polled[k].component) {
      assert UnheardRun(was.polled[k], c.polled[k].component) && |now.polled[k]| >= 0;
      if !(now.polled[k] != [] && Known(was.strides, k) != Known(now.strides, k)) {
        RunStaysNew(was.polled[k], now.polled[k], c.polled[k].component);
      }
    }
  }

  lemma {:induction false} RunStaysNew(was: seq<Node>, now: seq<Node>, c: Component)
    requires KeptRun(was, now, c) && UnheardRun(was, c)
    ensures UnheardRun(now, c)
    decreases c, 4
  {
    hide Kept, Unheard;
    forall i {:trigger now[i]} | 0 <= i < |now| ensures Unheard(now[i], c) {
      if i < |was| {
        assert Unheard(was[i], c);
        NewStaysNew(was[i], now[i], c);
      }
    }
  }

  /** A group resized without moving starts with its old instances; what follows is new. */
  lemma ResizedKeeps(existing: seq<Node>, p: Polled, count: nat, shift: int, stride: int, w: World)
    ensures var now := Resized(existing, p, count, shift, stride, w);
      && |now| == count
      && forall i {:trigger now[i]} :: 0 <= i < |now| ==> if i < |existing| then now[i] == existing[i] else Unheard(now[i], p.component)
  {
    hide Unheard, BuildRun, ReadRun;
    if |existing| < count {
      BuiltRunUnheard(p.component, shift, stride, |existing|, count, w);
    }
  }

  lemma {:induction false} GroupKeeps(node: Node, c: Component, k: nat, now: seq<Node>, strides: map<nat, int>, shift: int, root: Values, w: World)
    requires k < |c.polled| && Coherent(node, c, shift) && Fresh(node, c, w)
    requires RefreshRun(GroupNow(node, c, k, root, w), |GroupNow(node, c, k, root, w)|, c.polled[k].component, root, w) == Ok(now)
    requires Known(strides, k) ==
             if Wanted(c.polled[k], k, node.counts) > 0 then Some(StrideOf(c.polled[k], root)) else Known(node.strides, k)
    requires FreshRun(GroupNow(node, c, k, root, w), c.polled[k].component, w)
    requires GroupNow(node, c, k, root, w) != [] ==>
      k in strides && CoherentRun(GroupNow(node, c, k, root, w), c.polled[k].component, shift, strides[k])
    ensures if now != [] && Known(node.strides, k) != Known(strides, k) then UnheardRun(now, c.polled[k].component)
            else KeptRun(node.polled[k], now, c.polled[k].component)
    decreases c, 2
  {
    hide Wanted, StrideOf, CoherentRun, FreshRun, RefreshRun, KeptRun, CoherentStatics, FreshStatics, Declared, Unheard;
    var p, mid := c.polled[k], GroupNow(node, c, k, root, w);
    var count, stride := Wanted(p, k, node.counts), StrideOf(p, root);
    var staying := Staying(node.polled[k], count, Known(node.strides, k), stride);
    ResizedKeeps(staying, p, count, shift, stride, w);
    if mid == [] {
      NoneKept(node.polled[k], now, p.component, root, w);
    } else {
      RunKeeps(staying, mid, now, p.component, shift, strides[k], root, w);
      if staying == [] { NewRun(now, p.component); }
    }
  }

  lemma NewRun(now: seq<Node>, c: Component)
    requires KeptRun([], now, c)
    ensures UnheardRun(now, c)
  {
  }

  lemma NoneKept(was: seq<Node>, now: seq<Node>, c: Component, root: Values, w: World)
    requires RefreshRun([], 0, c, root, w) == Ok(now)
    ensures now == [] && KeptRun(was, now, c)
  {
  }

  /** A refresh keeps every instance that is still wanted where it was. */
  lemma {:induction false} RefreshKeeps(node: Node, c: Component, shift: int, root: Values, w: World)
    requires Coherent(node, c, shift) && Refresh(node, c, root, w).Ok? && Fresh(node, c, w)
    ensures Kept(node, Refresh(node, c, root, w).value, c)
    decreases c, 3
  {
    hide RefreshStatics, RefreshPolled, RefreshRun, Place, CoherentRun, FreshRun, ReadFields, ReadCounts, Wanted, StrideOf, GroupPlaced,
         GroupNow, Declared, KeptRun, UnheardRun;
    var now := Refresh(node, c, root, w).value;
    var placing := Place(node, c, |c.polled|, root, w).value;
    StaticsRefreshed(node, |c.statics|, c, root, w);
    PolledRefreshed(placing.polled, |c.polled|, c, root, w);
    PlacesGroups(node, c, |c.polled|, shift, root, w);
    forall k | 0 <= k < |c.statics| ensures |node.statics[k]| == |now.statics[k]| && KeptRun(node.statics[k], now.statics[k], c.statics[k].component) {
      assert CoherentRun(node.statics[k], c.statics[k].component, shift, c.statics[k].stride);
      assert FreshRun(node.statics[k], c.statics[k].component, w);
      RunKeeps(node.statics[k], node.statics[k], now.statics[k], c.statics[k].component, shift, c.statics[k].stride, root, w);
    }
    forall k | 0 <= k < |c.polled|
      ensures if now.polled[k] != [] && Known(node.strides, k) != Known(now.strides, k) then UnheardRun(now.polled[k], c.polled[k].component)
              else KeptRun(node.polled[k], now.polled[k], c.polled[k].component)
    {
      PlaceGives(node, c, |c.polled|, k, shift, root, w);
      assert GroupPlaced(placing.polled[k], placing.strides, c, k, node.counts, shift, root, w);
      GroupCoherent(placing.polled[k], placing.strides, c, k, node.counts, shift, root, w);
      GroupKeeps(node, c, k, now.polled[k], placing.strides, shift, root, w);
    }
  }

  lemma GroupCoherent(run: seq<Node>, strides: map<nat, int>, c: Component, k: nat, counts: map<nat, Option<int>>, shift: int, root: Values, w: World)
    requires k < |c.polled| && GroupPlaced(run, strides, c, k, counts, shift, root, w)
    ensures FreshRun(run, c.polled[k].component, w)
    ensures run != [] ==> k in strides && CoherentRun(run, c.polled[k].component, shift, strides[k])
  {
  }

  lemma {:induction false} KeptThroughRead(was: Node, now: Node, c: Component, shift: int, w: World)
    requires Coherent(was, c, shift) && Kept(Read(was, c, w), now, c)
    ensures Kept(was, now, c)
    decreases c, 3
  {
    hide KeptRun, UnheardRun, ReadFields, ReadCounts, CoherentRun, Declared;
    var read := Read(was, c, w);
    forall k | 0 <= k < |c.statics| ensures |was.statics[k]| == |now.statics[k]| && KeptRun(was.statics[k], now.statics[k], c.statics[k].component) {
      assert |read.statics[k]| == |now.statics[k]|;
      assert CoherentRun(was.statics[k], c.statics[k].component, shift, c.statics[k].stride);
      RunKeptThroughRead(was.statics[k], now.statics[k], c.statics[k].component, shift, c.statics[k].stride, w);
    }
    forall k | 0 <= k < |c.polled|
      ensures if now.polled[k] != [] && Known(was.strides, k) != Known(now.strides, k) then UnheardRun(now.polled[k], c.polled[k].component)
              else KeptRun(was.polled[k], now.polled[k], c.polled[k].component)
    {
      assert |read.polled[k]| == |was.polled[k]|;
      if !(now.polled[k] != [] && Known(was.strides, k) != Known(now.strides, k)) {
        if was.polled[k] == [] {
          assert read.polled[k] == [];
        } else {
          RunKeptThroughRead(was.polled[k], now.polled[k], c.polled[k].component, shift, was.strides[k], w);
        }
      }
    }
  }

  lemma {:induction false} RunKeptThroughRead(was: seq<Node>, now: seq<Node>, c: Component, shift: int, stride: int, w: World)
    requires CoherentRun(was, c, shift, stride) && KeptRun(ReadRun(was, c, w), now, c)
    ensures KeptRun(was, now, c)
    decreases c, 4
  {
    hide Kept, Unheard, Coherent, Read;
    forall i {:trigger now[i]} | 0 <= i < |now| ensures if i < |was| then Kept(was[i], now[i], c) else Unheard(now[i], c) {
      if i < |was| {
        assert Coherent(was[i], c, shift + i * stride);
        KeptThroughRead(was[i], now[i], c, shift + i * stride, w);
      }
    }
  }

  /**
   An update keeps every instance it can: at any depth, the instances of a group whose
   stride did not change survive as far as they are still wanted, and only those do.
   */
  lemma UpdateKeepsInstances(node: Node, c: Component, w: World)
    requires Coherent(node, c, 0) && Update(node, c, w).Ok?
    ensures Kept(node, Update(node, c, w).value, c)
  {
    hide Coherent, Fresh, Refresh, Kept;
    var read := Read(node, c, w);
    ReadIsFresh(node, c, 0, w);
    RefreshKeeps(read, c, 0, read.values, w);
    KeptThroughRead(node, Update(node, c, w).value, c, 0, w);
  }

  // ----- the loops themselves -----

  /** The groups as first placed: survivors, then instances built but not read yet. */
  ghost predicate Pending(groups: seq<seq<Node>>, kept: seq<nat>, read: seq<seq<Node>>, c: Component, n: nat, w: World) {
    && |groups| == |read| == |c.polled| && |kept| == n <= |c.polled|
    && (forall k {:trigger kept[k]} :: 0 <= k < n ==>
        kept[k] <= |groups[k]| && read[k] == groups[k][..kept[k]] + ReadRun(groups[k][kept[k]..], c.polled[k].component, w))
    && (forall k {:trigger groups[k]} :: n <= k < |c.polled| ==> groups[k] == read[k])
  }

  lemma NothingAdded(run: seq<Node>, c: Component, w: World)
    ensures run == run[..|run|] + ReadRun(run[|run|..], c, w)
  {
    hide Read;
  }

  /** The strides once one more group is placed. */
  function NextStrides(strides: map<nat, int>, n: nat, count: nat, stride: int): map<nat, int> {
    if count > 0 then strides[n := stride] else strides
  }

  /** What one more turn of the loop makes of the placing so far. */
  lemma PlaceNext(node: Node, c: Component, n: nat, root: Values, w: World, count: nat, stride: int, existing: seq<Node>)
    requires n < |c.polled| == |node.polled| && Place(node, c, n, root, w).Ok?
    requires count == Wanted(c.polled[n], n, node.counts) && stride == StrideOf(c.polled[n], root) && (count > 0 ==> stride > 0)
    requires existing == Staying(node.polled[n], count, Known(node.strides, n), stride)
    requires |existing| != count ==> n in NextStrides(Place(node, c, n, root, w).value.strides, n, count, stride)
    ensures |Place(node, c, n, root, w).value.polled| == |c.polled|
    ensures var was := Place(node, c, n, root, w).value;
      var now := NextStrides(was.strides, n, count, stride);
      Place(node, c, n + 1, root, w) ==
      Ok(Placing(now, was.polled[n := if |existing| == count then existing else Resized(existing, c.polled[n], count, node.shift, now[n], w)]))
  {
    hide Wanted, StrideOf, Resized, Staying;
    PlaceLength(node, c, n, root, w);
  }

  lemma PlaceBad(node: Node, c: Component, n: nat, root: Values, w: World)
    requires n < |c.polled| == |node.polled|
    requires Wanted(c.polled[n], n, node.counts) > 0 && StrideOf(c.polled[n], root) <= 0
    ensures Place(node, c, n + 1, root, w).Err?
  {
    hide Wanted, StrideOf, Resized, Staying;
  }

  lemma NonePlaced(node: Node, c: Component, root: Values, w: World)
    requires |c.polled| == |node.polled|
    ensures Place(node, c, 0, root, w) == Ok(Placing(node.strides, node.polled))
    ensures Pending(node.polled, [], node.polled, c, 0, w)
  {
    hide ReadRun;
  }

  /** One group placed: survivors, then instances built but not read yet; and how many survive. */
  method PlaceOne(existing: seq<Node>, p: Polled, count: nat, shift: int, stride: int, w: World)
    returns (run: seq<Node>, kept: nat)
    ensures kept <= |run| && (|existing| == count ==> run == existing && kept == count)
    ensures run[..kept] + ReadRun(run[kept..], p.component, w) ==
            if |existing| == count then existing else Resized(existing, p, count, shift, stride, w)
  {
    hide ReadRun, BuildRun;
    if |existing| == count {
      NothingAdded(existing, p.component, w);
      return existing, count;
    }
    AddedLater(existing, p, count, shift, stride, w);
    var survivors := if |existing| > count then existing[..count] else existing;
    run, kept := survivors + BuildRun(p.component, shift, stride, |existing|, count), |survivors|;
  }

  /** Resize and place each poll-time group; `resized` tells whether the read plan is out of date. */
  method PlaceGroups(node: Node, c: Component, root: Values, w: World)
    returns (ok: bool, strides: map<nat, int>, groups: seq<seq<Node>>, kept: seq<nat>, resized: bool)
    requires |c.polled| == |node.polled|
    requires forall k {:trigger node.polled[k]} :: 0 <= k < |c.polled| && node.polled[k] != [] ==> k in node.strides
    ensures ok <==> Place(node, c, |c.polled|, root, w).Ok?
    ensures ok ==>
      var placing := Place(node, c, |c.polled|, root, w).value;
      placing.strides == strides && Pending(groups, kept, placing.polled, c, |c.polled|, w)
    ensures ok && !resized ==> groups == node.polled
  {
    hide Wanted, StrideOf, ReadRun, BuildRun, Resized, Place, Pending;
    strides, groups, kept, resized, ok := node.strides, node.polled, [], false, true;
    NonePlaced(node, c, root, w);
    for n := 0 to |c.polled|
      invariant |groups| == |c.polled| && |kept| == n
      invariant Place(node, c, n, root, w).Ok? && Place(node, c, n, root, w).value.strides == strides
      invariant Pending(groups, kept, Place(node, c, n, root, w).value.polled, c, n, w)
      invariant forall k {:trigger groups[k]} :: n <= k < |c.polled| ==> groups[k] == node.polled[k]
      invariant forall k :: k in node.strides ==> k in strides
      invariant forall k :: n <= k ==> Known(strides, k) == Known(node.strides, k)
      invariant !resized ==> groups == node.polled
    {
      var p := c.polled[n];
      var count := Wanted(p, n, node.counts);
      var existing := groups[n];
      assert existing == node.polled[n];
      ghost var was := Place(node, c, n, root, w).value;
      if count > 0 {
        var stride := StrideOf(p, root);
        if stride <= 0 {
          PlaceBad(node, c, n, root, w);
          PlaceFails(node, c, n + 1, |c.polled|, root, w);
          return false, strides, groups, kept, resized;
        }
        if Known(strides, n) != Some(stride) {
          strides := strides[n := stride];
          existing := [];
        }
      }
      assert existing == Staying(node.polled[n], count, Known(node.strides, n), StrideOf(p, root));
      if count > 0 { SameStride(was.strides, n, StrideOf(p, root), strides); }
      ghost var before, keptBefore := groups, kept;
      var run, stay := PlaceOne(existing, p, count, node.shift, if n in strides then strides[n] else 0, w);
      if |existing| != count {
        resized := true;
      }
      groups, kept := groups[n := run], kept + [stay];
      PlaceNext(node, c, n, root, w, count, StrideOf(p, root), existing);
      PendingStep(before, keptBefore, was.polled, groups, kept, Place(node, c, n + 1, root, w).value.polled, c, n, w);
    }
  }

  lemma SameStride(was: map<nat, int>, n: nat, stride: int, now: map<nat, int>)
    requires if Known(was, n) != Some(stride) then now == was[n := stride] else now == was
    ensures now == was[n := stride]
  {
  }

  lemma AddedLater(existing: seq<Node>, p: Polled, count: nat, shift: int, stride: int, w: World)
    requires |existing| != count
    ensures var survivors := if |existing| > count then existing[..count] else existing;
      var run := survivors + BuildRun(p.component, shift, stride, |existing|, count);
      Resized(existing, p, count, shift, stride, w) == run[..|survivors|] + ReadRun(run[|survivors|..], p.component, w)
  {
    hide Read, Build;
    var survivors := if |existing| > count then existing[..count] else existing;
    var built := BuildRun(p.component, shift, stride, |existing|, count);
    var run := survivors + built;
    assert run[..|survivors|] == survivors && run[|survivors|..] == built;
    if |existing| > count { assert built == [] && ReadRun(built, p.component, w) == []; }
  }

  lemma PendingStep(before: seq<seq<Node>>, keptBefore: seq<nat>, readBefore: seq<seq<Node>>,
                    groups: seq<seq<Node>>, kept: seq<nat>, read: seq<seq<Node>>, c: Component, n: nat, w: World)
    requires n < |c.polled| && Pending(before, keptBefore, readBefore, c, n, w)
    requires |kept| == n + 1 && kept[..n] == keptBefore
    requires |groups| == |read| == |c.polled|
    requires groups == before[n := groups[n]] && read == readBefore[n := read[n]]
    requires kept[n] <= |groups[n]| && read[n] == groups[n][..kept[n]] + ReadRun(groups[n][kept[n]..], c.polled[n].component, w)
    ensures Pending(groups, kept, read, c, n + 1, w)
  {
    hide ReadRun;
    forall k {:trigger kept[k]} | 0 <= k < n + 1
      ensures kept[k] <= |groups[k]| && read[k] == groups[k][..kept[k]] + ReadRun(groups[k][kept[k]..], c.polled[k].component, w)
    {
      if k < n { assert kept[k] == keptBefore[k] && groups[k] == before[k] && read[k] == readBefore[k]; }
    }
    forall k {:trigger groups[k]} | n + 1 <= k < |c.polled| ensures groups[k] == read[k] {
      assert groups[k] == before[k];
    }
  }

  lemma {:induction false} PlaceFails(node: Node, c: Component, m: nat, n: nat, root: Values, w: World)
    requires m <= n <= |c.polled| <= |node.polled| && Place(node, c, m, root, w).Err?
    ensures Place(node, c, n, root, w).Err?
    decreases n
  {
    hide Wanted, StrideOf, Resized, Staying;
    if m < n { PlaceFails(node, c, m, n - 1, root, w); }
  }

  /** Read the instances just added, and only those. */
  method ReadAdded(groups0: seq<seq<Node>>, kept: seq<nat>, c: Component, w: World, ghost read: seq<seq<Node>>)
    returns (groups: seq<seq<Node>>)
    requires Pending(groups0, kept, read, c, |c.polled|, w)
    ensures groups == read
  {
    hide ReadRun;
    groups := groups0;
    for k := 0 to |c.polled|
      invariant |groups| == |c.polled|
      invariant forall j {:trigger groups[j]} :: 0 <= j < k ==> groups[j] == read[j]
      invariant forall j {:trigger groups[j]} :: k <= j < |c.polled| ==> groups[j] == groups0[j]
    {
      assert kept[k] <= |groups[k]|;
      groups := groups[k := groups[k][..kept[k]] + ReadRun(groups[k][kept[k]..], c.polled[k].component, w)];
    }
  }

  method RefreshEach(run: seq<Node>, c: Component, root: Values, w: World, ghost shift: int, ghost stride: int)
    returns (r: Result<seq<Node>, StrideError>)
    requires CoherentRun(run, c, shift, stride) && FreshRun(run, c, w)
    ensures r == RefreshRun(run, |run|, c, root, w)
    decreases c, 4
  {
    hide Coherent, Fresh, Refresh;
    var now: seq<Node> := [];
    for i := 0 to |run|
      invariant RefreshRun(run, i, c, root, w) == Ok(now)
    {
      assert Coherent(run[i], c, shift + i * stride) && Fresh(run[i], c, w);
      var one := RefreshGroups(run[i], c, root, w, shift + i * stride);
      if one.Err? {
        RunFails(run, i + 1, |run|, c, root, w);
        return Err(StrideError);
      }
      now := now + [one.value];
    }
    r := Ok(now);
  }

  lemma {:induction false} RunFails(run: seq<Node>, m: nat, n: nat, c: Component, root: Values, w: World)
    requires m <= n <= |run| && RefreshRun(run, m, c, root, w).Err?
    ensures RefreshRun(run, n, c, root, w) == Err(StrideError)
    decreases n
  {
    hide Refresh;
    if m < n { RunFails(run, m, n - 1, c, root, w); }
  }

  lemma {:induction false} StaticsFail(node: Node, m: nat, n: nat, c: Component, root: Values, w: World)
    requires m <= n <= |c.statics| <= |node.statics| && RefreshStatics(node, m, c, root, w).Err?
    ensures RefreshStatics(node, n, c, root, w) == Err(StrideError)
    decreases n
  {
    hide RefreshRun;
    if m < n { StaticsFail(node, m, n - 1, c, root, w); }
  }

  lemma {:induction false} PolledFail(polled: seq<seq<Node>>, m: nat, n: nat, c: Component, root: Values, w: World)
    requires m <= n <= |c.polled| <= |polled| && RefreshPolled(polled, m, c, root, w).Err?
    ensures RefreshPolled(polled, n, c, root, w) == Err(StrideError)
    decreases n
  {
    hide RefreshRun;
    if m < n { PolledFail(polled, m, n - 1, c, root, w); }
  }

  /** The second pass of a refresh, group by group and instance by instance. */
  method RefreshGroups(node: Node, c: Component, root: Values, w: World, ghost shift: int) returns (r: Result<Node, StrideError>)
    requires Coherent(node, c, shift) && Fresh(node, c, w)
    ensures r == Refresh(node, c, root, w)
    decreases c, 3
  {
    hide RefreshRun, CoherentRun, FreshRun, Place, ReadFields, ReadCounts, GroupPlaced, Declared;
    var statics: seq<seq<Node>> := [];
    for k := 0 to |c.statics|
      invariant RefreshStatics(node, k, c, root, w) == Ok(statics)
    {
      assert CoherentRun(node.statics[k], c.statics[k].component, shift, c.statics[k].stride);
      assert FreshRun(node.statics[k], c.statics[k].component, w);
      var run := RefreshEach(node.statics[k], c.statics[k].component, root, w, shift, c.statics[k].stride);
      if run.Err? {
        StaticsFail(node, k + 1, |c.statics|, c, root, w);
        return Err(StrideError);
      }
      statics := statics + [run.value];
    }
    var ok, strides, groups, kept, resized := PlaceGroups(node, c, root, w);
    if !ok {
      return Err(StrideError);
    }
    ghost var placed := Place(node, c, |c.polled|, root, w).value;
    PlacesGroups(node, c, |c.polled|, shift, root, w);
    groups := ReadAdded(groups, kept, c, w, placed.polled);
    var polled: seq<seq<Node>> := [];
    for k := 0 to |c.polled|
      invariant RefreshPolled(groups, k, c, root, w) == Ok(polled)
    {
      GroupCoherent(groups[k], strides, c, k, node.counts, shift, root, w);
      ghost var stride := if k in strides then strides[k] else 0;
      if groups[k] == [] { NoneIsCoherent(c.polled[k].component, shift, stride); }
      var run := RefreshEach(groups[k], c.polled[k].component, root, w, shift, stride);
      if run.Err? {
        PolledFail(groups, k + 1, |c.polled|, c, root, w);
        return Err(StrideError);
      }
      polled := polled + [run.value];
    }
    r := Ok(node.(strides := strides, statics := statics, polled := polled));
  }
}
