/**
 From a definition to a live tree: what an emitted class is at run time, and that any
 run of updates against a device ends with the definition's instances in their places.
 */
module Deployment {
  import opened Wrappers
  import Merging
  import Reading
  import Codec
  import L = Layout
  import P = Placement
  import E = Emission
  import G = Generation
  import C = Compilation
  import R = Refreshing

  // ----- emitted classes as components -----

  /** The name count registers are decoded under. */
  const COUNT := "count"

  function FieldOf(f: E.Field): R.FieldDecl {
    R.FieldDecl(f.name, f.address, f.width, f.scale, Merging.Holding)
  }

  function FieldsOf(fields: seq<E.Field>): (decls: seq<R.FieldDecl>)
    ensures |decls| == |fields| && forall i :: 0 <= i < |fields| ==> decls[i] == FieldOf(fields[i])
  {
    seq(|fields|, i requires 0 <= i < |fields| => FieldOf(fields[i]))
  }

  /** A group is placed before the device is read when its count and its stride are numbers (`is_static`). */
  predicate IsStatic(w: E.Wiring) {
    w.ToModelEnd? || (w.Repeating? && w.count.Literal? && w.stride.terms == [])
  }

  predicate IsPolled(w: E.Wiring) {
    w.Repeating? && !IsStatic(w)
  }

  function CounterOf(count: E.CountRef): R.CountSource {
    match count
    case Literal(n) => R.Always(n)
    case Register(address, inBlock) => R.Counted(R.FieldDecl(COUNT, address, 1, None, Merging.Holding), inBlock)
  }

  /** A sum over attributes of the model instance. */
  function Weighted(terms: seq<E.Term>, n: nat, values: R.Values): int
    requires n <= |terms|
  {
    if n == 0 then 0
    else
      var name := terms[n - 1].name;
      Weighted(terms, n - 1, values) +
      terms[n - 1].registers * (if name in values && values[name].Some? then values[name].value else 0)
  }

  function StriderOf(stride: E.Stride): R.StrideSource {
    if stride.terms == [] then R.Apart(stride.size)
    else R.Computed(values => stride.size + Weighted(stride.terms, |stride.terms|, values))
  }

  /** How many instances a static group has in a model of the given span. */
  function StaticCount(w: E.Wiring, span: int): int
    requires IsStatic(w)
  {
    if w.ToModelEnd? then
      if w.width > 0 && E.Bind(w.start, w.width, span).Some? then E.Bind(w.start, w.width, span).value else 0
    else w.count.n
  }

  function StaticStride(w: E.Wiring): int
    requires IsStatic(w)
  {
    if w.ToModelEnd? then w.width else w.stride.size
  }

  function StaticsOf(c: E.Class, n: nat, span: int): seq<R.Static>
    requires n <= |c.groups|
    decreases c, n
  {
    if n == 0 then []
    else
      var g := c.groups[n - 1];
      StaticsOf(c, n - 1, span) +
      if IsStatic(g.wiring) then [R.Static(Runtime(g.component, span), StaticCount(g.wiring, span), StaticStride(g.wiring))] else []
  }

  function PolledOf(c: E.Class, n: nat, span: int): seq<R.Polled>
    requires n <= |c.groups|
    decreases c, n
  {
    if n == 0 then []
    else
      var g := c.groups[n - 1];
      PolledOf(c, n - 1, span) +
      if IsPolled(g.wiring) then [R.Polled(Runtime(g.component, span), CounterOf(g.wiring.count), StriderOf(g.wiring.stride))] else []
  }

  /** A class as a component of a model of the given span. */
  function Runtime(c: E.Class, span: int): R.Component
    decreases c, |c.groups| + 1
  {
    R.Component(FieldsOf(c.fields), c.scaleInBlock, StaticsOf(c, |c.groups|, span), PolledOf(c, |c.groups|, span))
  }

  lemma {:induction false} StaticAt(c: E.Class, n: nat, k: nat, span: int)
    requires k < n <= |c.groups| && IsStatic(c.groups[k].wiring)
    ensures var g := c.groups[k];
      var at := |StaticsOf(c, k, span)|;
      && at < |StaticsOf(c, n, span)|
      && StaticsOf(c, n, span)[at] == R.Static(Runtime(g.component, span), StaticCount(g.wiring, span), StaticStride(g.wiring))
    decreases n
  {
    hide Runtime, StaticCount, StaticStride;
    if k < n - 1 { StaticAt(c, n - 1, k, span); }
  }

  lemma {:induction false} PolledAt(c: E.Class, n: nat, k: nat, span: int)
    requires k < n <= |c.groups| && IsPolled(c.groups[k].wiring)
    ensures var g := c.groups[k];
      var at := |PolledOf(c, k, span)|;
      && at < |PolledOf(c, n, span)|
      && PolledOf(c, n, span)[at] == R.Polled(Runtime(g.component, span), CounterOf(g.wiring.count), StriderOf(g.wiring.stride))
    decreases n
  {
    hide Runtime, CounterOf, StriderOf;
    if k < n - 1 { PolledAt(c, n - 1, k, span); }
  }

  /** The groups of a class that are wired into it. */
  function WiredGroups(c: E.Class, n: nat): set<nat>
    requires n <= |c.groups|
  {
    set k: nat | k < n && !c.groups[k].wiring.Unwired?
  }

  /** A component has one group for each wired one of its class, fixed or placed when polled, and no others. */
  lemma {:induction false} OneGroupEach(c: E.Class, n: nat, span: int)
    requires n <= |c.groups|
    ensures |StaticsOf(c, n, span)| + |PolledOf(c, n, span)| == |WiredGroups(c, n)|
  {
    if n == 0 {
      assert WiredGroups(c, n) == {};
    } else {
      OneGroupEach(c, n - 1, span);
      assert WiredGroups(c, n) == WiredGroups(c, n - 1) + if c.groups[n - 1].wiring.Unwired? then {} else {n - 1};
    }
  }

  /** The instances of the `k`-th group of a class, in what a user sees of one of its instances. */
  function RunAt(v: R.View, c: E.Class, k: nat, span: int): seq<R.View>
    requires k < |c.groups|
  {
    var s, p := |StaticsOf(c, k, span)|, |PolledOf(c, k, span)|;
    if IsStatic(c.groups[k].wiring) then if s < |v.statics| then v.statics[s] else []
    else if IsPolled(c.groups[k].wiring) then if p < |v.polled| then v.polled[p] else []
    else []
  }

  function ViewAt(v: R.View, c: E.Class, path: seq<L.Step>, span: int): Option<R.View>
    decreases |path|
  {
    if path == [] then Some(v)
    else if path[0].group >= |c.groups| then None
    else
      var run := RunAt(v, c, path[0].group, span);
      if path[0].instance < |run| then ViewAt(run[path[0].instance], c.groups[path[0].group].component, path[1..], span) else None
  }

  // ----- the ideal tree, member by member -----

  lemma {:induction false} IdealRunAt(c: R.Component, n: nat, i: nat, shift: int, stride: int, root: R.Values, w: R.World)
    requires i < n && R.IdealRun(c, n, shift, stride, root, w).Ok?
    ensures |R.IdealRun(c, n, shift, stride, root, w).value| == n
    ensures R.Ideal(c, shift + i * stride, root, w) == Ok(R.IdealRun(c, n, shift, stride, root, w).value[i])
    decreases n
  {
    hide R.Ideal;
    IdealRunLength(c, n - 1, shift, stride, root, w);
    if i < n - 1 { IdealRunAt(c, n - 1, i, shift, stride, root, w); }
  }

  lemma {:induction false} IdealRunLength(c: R.Component, n: nat, shift: int, stride: int, root: R.Values, w: R.World)
    requires R.IdealRun(c, n, shift, stride, root, w).Ok?
    ensures |R.IdealRun(c, n, shift, stride, root, w).value| == n
    decreases n
  {
    hide R.Ideal;
    if n > 0 { IdealRunLength(c, n - 1, shift, stride, root, w); }
  }

  lemma {:induction false} IdealStaticAt(c: R.Component, n: nat, k: nat, shift: int, root: R.Values, w: R.World)
    requires k < n <= |c.statics| && R.IdealStatics(c, n, shift, root, w).Ok?
    ensures |R.IdealStatics(c, n, shift, root, w).value| == n
    ensures var s := c.statics[k];
      R.IdealRun(s.component, if s.count > 0 then s.count else 0, shift, s.stride, root, w) == Ok(R.IdealStatics(c, n, shift, root, w).value[k])
    decreases n
  {
    hide R.IdealRun;
    if n > 1 { IdealStaticAt(c, n - 1, if k < n - 1 then k else 0, shift, root, w); }
  }

  lemma {:induction false} IdealPolledAt(c: R.Component, n: nat, k: nat, shift: int, root: R.Values, w: R.World)
    requires k < n <= |c.polled| && R.IdealPolled(c, n, shift, root, w).Ok?
    ensures |R.IdealPolled(c, n, shift, root, w).value| == n
    ensures var p, counts := c.polled[k], R.ReadCounts(map[], c, |c.polled|, shift, w);
      R.IdealRun(p.component, R.Wanted(p, k, counts), shift, R.StrideOf(p, root), root, w) == Ok(R.IdealPolled(c, n, shift, root, w).value[k])
    decreases n
  {
    hide R.IdealRun, R.Wanted, R.StrideOf, R.ReadCounts;
    if n > 1 { IdealPolledAt(c, n - 1, if k < n - 1 then k else 0, shift, root, w); }
  }

  lemma {:induction false} CountAt(c: R.Component, n: nat, k: nat, shift: int, w: R.World)
    requires k < n <= |c.polled| && c.polled[k].count.Counted?
    ensures k in R.ReadCounts(map[], c, n, shift, w)
    ensures R.ReadCounts(map[], c, n, shift, w)[k] == R.CountOf(c.polled[k].count.field, c.polled[k].count.inBlock, c, shift, w)
    decreases n
  {
    hide R.CountOf;
    if k < n - 1 { CountAt(c, n - 1, k, shift, w); }
  }

  // ----- the device behind the classes -----

  /** A count register: 0xFFFF is unimplemented. */
  function Uint16(word: int): Option<int> {
    if word == 0xFFFF then None else Some(word)
  }

  /** The image is the device's, and count registers decode as unsigned words. */
  ghost predicate Serves(w: R.World, base: int, device: E.Device) {
    && w.base == base
    && (forall a {:trigger device(a)} :: w.image(Merging.Holding, a) == device(a))
    && (forall a, word :: w.decode(Reading.ResolvedField(COUNT, a, 1, None, Merging.Holding), [word], None) == Uint16(word))
  }

  /** Every attribute a stride is computed from has been read, from its own register. */
  ghost predicate AttributesRead(c: E.Class, root: R.Values, base: int, device: E.Device)
    decreases c
  {
    forall k {:trigger c.groups[k]} :: 0 <= k < |c.groups| && !c.groups[k].wiring.Unwired? ==>
      && (c.groups[k].wiring.Repeating? ==> TermsRead(c.groups[k].wiring.stride.terms, root, base, device))
      && AttributesRead(c.groups[k].component, root, base, device)
  }

  ghost predicate TermsRead(terms: seq<E.Term>, root: R.Values, base: int, device: E.Device) {
    forall i {:trigger terms[i]} :: 0 <= i < |terms| ==>
      terms[i].name in root && root[terms[i].name] == Some(device(base + terms[i].address))
  }

  lemma {:induction false} WeightedIs(terms: seq<E.Term>, n: nat, root: R.Values, base: int, device: E.Device)
    requires n <= |terms| && TermsRead(terms, root, base, device)
    ensures Weighted(terms, n, root) == E.TermsAt(terms, n, base, device)
    decreases n
  {
    if n > 0 { WeightedIs(terms, n - 1, root, base, device); }
  }

  /** A polled group of the ideal tree is as large, and as spread out, as its class says. */
  lemma PolledGroup(c: E.Class, k: nat, shift: int, root: R.Values, w: R.World, base: int, device: E.Device, span: int)
    requires k < |c.groups| && IsPolled(c.groups[k].wiring) && Serves(w, base, device) && AttributesRead(c, root, base, device)
    ensures var rt, at := Runtime(c, span), |PolledOf(c, k, span)|;
      && at < |rt.polled| && rt.polled[at].component == Runtime(c.groups[k].component, span)
      && R.Wanted(rt.polled[at], at, R.ReadCounts(map[], rt, |rt.polled|, shift, w)) ==
         E.CountAt(c.groups[k].wiring, E.Place(base, shift), device, span)
      && R.StrideOf(rt.polled[at], root) == E.StrideAt(c.groups[k].wiring, base, device)
  {
    hide AttributesRead, R.ReadCounts, E.TermsAt, Weighted, StaticsOf, PolledOf;
    var rt, at, wiring := Runtime(c, span), |PolledOf(c, k, span)|, c.groups[k].wiring;
    PolledAt(c, |c.groups|, k, span);
    assert TermsRead(wiring.stride.terms, root, base, device) by { GroupTerms(c, k, root, base, device); }
    WeightedIs(wiring.stride.terms, |wiring.stride.terms|, root, base, device);
    NoTermsAt(wiring.stride.terms, base, device);
    if wiring.count.Register? {
      CountAt(rt, |rt.polled|, at, shift, w);
      CountReads(rt, wiring.count, shift, w, base, device);
    }
  }

  lemma GroupTerms(c: E.Class, k: nat, root: R.Values, base: int, device: E.Device)
    requires k < |c.groups| && c.groups[k].wiring.Repeating? && AttributesRead(c, root, base, device)
    ensures TermsRead(c.groups[k].wiring.stride.terms, root, base, device)
  {
    hide TermsRead;
  }

  lemma NoTermsAt(terms: seq<E.Term>, base: int, device: E.Device)
    ensures terms == [] ==> E.TermsAt(terms, |terms|, base, device) == 0
  {
  }

  lemma CountReads(c: R.Component, count: E.CountRef, shift: int, w: R.World, base: int, device: E.Device)
    requires count.Register? && Serves(w, base, device)
    ensures var field := CounterOf(count).field;
      R.CountOf(field, count.inBlock, c, shift, w) == Uint16(device(E.CountAddress(count, E.Place(base, shift))))
  {
    var address := E.CountAddress(count, E.Place(base, shift));
    assert Reading.Words(w.image, Merging.Holding, address, 1) == [device(address)];
  }

  lemma StaticGroup(c: E.Class, k: nat, base: int, shift: int, device: E.Device, span: int)
    requires k < |c.groups| && IsStatic(c.groups[k].wiring)
    ensures var rt, at := Runtime(c, span), |StaticsOf(c, k, span)|;
      && at < |rt.statics| && rt.statics[at].component == Runtime(c.groups[k].component, span)
      && (if rt.statics[at].count > 0 then rt.statics[at].count else 0) == E.CountAt(c.groups[k].wiring, E.Place(base, shift), device, span)
      && rt.statics[at].stride == E.StrideAt(c.groups[k].wiring, base, device)
  {
    hide StaticsOf, PolledOf;
    StaticAt(c, |c.groups|, k, span);
    if c.groups[k].wiring.Repeating? { NoTermsAt(c.groups[k].wiring.stride.terms, base, device); }
  }

  /** The instances of one group of the ideal tree: as many as its class says, each ideal where it should be. */
  lemma GroupOfIdeal(c: E.Class, v: R.View, k: nat, i: nat, shift: int, root: R.Values, w: R.World, base: int, device: E.Device, span: int)
    requires R.Ideal(Runtime(c, span), shift, root, w) == Ok(v)
    requires k < |c.groups| && Serves(w, base, device) && AttributesRead(c, root, base, device)
    ensures var wiring, run := c.groups[k].wiring, RunAt(v, c, k, span);
      && |run| == E.CountAt(wiring, E.Place(base, shift), device, span)
      && (wiring.Unwired? ==> run == [])
      && (i < |run| ==>
          R.Ideal(Runtime(c.groups[k].component, span), shift + i * E.StrideAt(wiring, base, device), root, w) == Ok(run[i]))
  {
    hide Runtime, R.Wanted, R.StrideOf, R.ReadCounts, R.IdealRun, E.CountAt, E.StrideAt, AttributesRead, Serves, StaticsOf, PolledOf;
    var rt, wiring := Runtime(c, span), c.groups[k].wiring;
    if IsStatic(wiring) {
      var at := |StaticsOf(c, k, span)|;
      StaticGroup(c, k, base, shift, device, span);
      IdealStaticAt(rt, |rt.statics|, at, shift, root, w);
      var s := rt.statics[at];
      var n := if s.count > 0 then s.count else 0;
      IdealRunLength(s.component, n, shift, s.stride, root, w);
      if i < n { IdealRunAt(s.component, n, i, shift, s.stride, root, w); }
    } else if IsPolled(wiring) {
      var at := |PolledOf(c, k, span)|;
      PolledGroup(c, k, shift, root, w, base, device, span);
      IdealPolledAt(rt, |rt.polled|, at, shift, root, w);
      var p := rt.polled[at];
      var n := R.Wanted(p, at, R.ReadCounts(map[], rt, |rt.polled|, shift, w));
      IdealRunLength(p.component, n, shift, R.StrideOf(p, root), root, w);
      if i < n { IdealRunAt(p.component, n, i, shift, R.StrideOf(p, root), root, w); }
    } else {
      Unwired(wiring, base, shift, device, span);
    }
  }

  lemma Unwired(wiring: E.Wiring, base: int, shift: int, device: E.Device, span: int)
    requires !IsStatic(wiring) && !IsPolled(wiring)
    ensures wiring.Unwired? && E.CountAt(wiring, E.Place(base, shift), device, span) == 0
  {
  }

  /** The ideal tree of a class has exactly the instances the class builds, each at its place with its fields read. */
  lemma {:induction false} IdealIsBuilt(c: E.Class, v: R.View, path: seq<L.Step>, shift: int, root: R.Values, w: R.World,
                                        base: int, device: E.Device, span: int)
    requires R.Ideal(Runtime(c, span), shift, root, w) == Ok(v)
    requires Serves(w, base, device) && AttributesRead(c, root, base, device)
    ensures ViewAt(v, c, path, span).Some? <==> E.Exists(c, path, E.Place(base, shift), device, span)
    ensures ViewAt(v, c, path, span).Some? ==>
      var at := E.PlaceOf(c, path, E.Place(base, shift), device, span);
      R.Ideal(Runtime(E.ClassAt(c, path), span), at.shift, root, w) == Ok(ViewAt(v, c, path, span).value)
    decreases |path|
  {
    hide Runtime, R.Ideal, E.CountAt, E.StrideAt, Serves, AttributesRead, RunAt;
    if path != [] && path[0].group < |c.groups| {
      var k, i := path[0].group, path[0].instance;
      var g, run := c.groups[k], RunAt(v, c, k, span);
      GroupOfIdeal(c, v, k, i, shift, root, w, base, device, span);
      if i < |run| {
        BelowRead(c, k, root, base, device);
        IdealIsBuilt(g.component, run[i], path[1..], shift + i * E.StrideAt(g.wiring, base, device), root, w, base, device, span);
      }
    }
  }

  lemma BelowRead(c: E.Class, k: nat, root: R.Values, base: int, device: E.Device)
    requires k < |c.groups| && !c.groups[k].wiring.Unwired? && AttributesRead(c, root, base, device)
    ensures AttributesRead(c.groups[k].component, root, base, device)
  {
    hide TermsRead;
  }

  // ----- the attributes strides are computed from -----

  /** The points blocks are counted by are plain unsigned words. */
  predicate PlainCounter(raw: L.RawPoint) {
    raw.kind.CountPoint? || (raw.kind.Uint16? && raw.scale.Unscaled?)
  }

  ghost predicate CountersPlain(points: seq<L.Point>, names: set<string>) {
    forall i {:trigger points[i]} :: 0 <= i < |points| && points[i].raw.name in names ==> PlainCounter(points[i].raw)
  }

  /** And their fields decode as such. */
  ghost predicate CountersDecode(w: R.World, names: set<string>) {
    forall name, a, word :: name in names ==>
      w.decode(Reading.ResolvedField(name, a, 1, None, Merging.Holding), [word], None) == Uint16(word)
  }

  /** What the model's fields hold after a read, as far as its first points go. */
  function ValuesOf(fields: seq<E.Field>, n: nat, w: R.World): R.Values
    requires n <= |fields|
  {
    if n == 0 then map[]
    else ValuesOf(fields, n - 1, w)[fields[n - 1].name := Reading.FieldValue(R.Resolve(FieldOf(fields[n - 1]), false, w.base, 0), w.image, w.decode)]
  }

  lemma {:induction false} ValuesAreRead(c: E.Class, n: nat, w: R.World, span: int)
    requires n <= |c.fields| && !c.scaleInBlock
    ensures R.ReadFields(map[], Runtime(c, span), n, 0, w) == ValuesOf(c.fields, n, w)
  {
    if n > 0 { ValuesAreRead(c, n - 1, w, span); }
  }

  lemma {:induction false} ValuesPrefix(fields: seq<E.Field>, more: E.Field, n: nat, w: R.World)
    requires n <= |fields|
    ensures ValuesOf(fields + [more], n, w) == ValuesOf(fields, n, w)
  {
    hide R.Resolve;
    if n > 0 { ValuesPrefix(fields, more, n - 1, w); }
  }

  /** A counter's field reads its one register. */
  lemma CounterValue(point: L.Point, scales: map<string, int>, names: set<string>, w: R.World, device: E.Device)
    requires PlainCounter(point.raw) && point.raw.name in names && E.EmitPoint(point, scales).Ok?
    requires Serves(w, w.base, device) && CountersDecode(w, names)
    ensures var f := E.EmitPoint(point, scales).value;
      && f.name == point.raw.name
      && Reading.FieldValue(R.Resolve(FieldOf(f), false, w.base, 0), w.image, w.decode) == Uint16(device(w.base + point.address))
  {
    var address := point.address + w.base + 0;
    assert Reading.Words(w.image, Merging.Holding, address, 1) == [device(address)];
  }

  /** An attribute holds what its own register reads: the last point of a name is the last field of that name. */
  lemma {:induction false} AttributeIsRead(points: seq<L.Point>, n: nat, referenced: set<string>, scales: map<string, int>,
                                           name: string, names: set<string>, w: R.World, device: E.Device)
    requires n <= |points| && E.EmitFields(points, n, referenced, scales, true).Ok?
    requires CountersPlain(points, names) && name in names && Serves(w, w.base, device) && CountersDecode(w, names)
    requires E.AttributeOf(points, name, n).Some?
    ensures var fields := E.EmitFields(points, n, referenced, scales, true).value;
      && name in ValuesOf(fields, |fields|, w)
      && ValuesOf(fields, |fields|, w)[name] == Uint16(device(w.base + E.AttributeOf(points, name, n).value))
    decreases n
  {
    hide E.EmitPoint, E.Emitted, E.Header, Serves, CountersDecode, R.Resolve, Reading.FieldValue, Uint16, PlainCounter;
    var last := points[n - 1];
    var rest := E.EmitFields(points, n - 1, referenced, scales, true).value;
    var emitted := E.Emitted(last.raw, referenced) && !E.Header(last);
    if emitted { ValuesPrefix(rest, E.EmitPoint(last, scales).value, |rest|, w); }
    if last.raw.name == name && !E.Header(last) {
      CounterIsEmitted(last.raw, referenced);
      CounterValue(last, scales, names, w, device);
    } else {
      if emitted { NameOfField(last, scales); }
      AttributeIsRead(points, n - 1, referenced, scales, name, names, w, device);
    }
  }

  lemma CounterIsEmitted(raw: L.RawPoint, referenced: set<string>)
    requires PlainCounter(raw)
    ensures E.Emitted(raw, referenced)
  {
  }

  lemma NameOfField(point: L.Point, scales: map<string, int>)
    requires E.EmitPoint(point, scales).Ok?
    ensures E.EmitPoint(point, scales).value.name == point.raw.name
  {
  }

  /** What the attributes of a model's count points hold. */
  ghost predicate CountersHeld(points: seq<L.Point>, names: set<string>, root: R.Values, base: int, device: E.Device) {
    forall name :: name in names && E.AttributeOf(points, name, |points|).Some? ==>
      name in root && root[name] == Some(device(base + E.AttributeOf(points, name, |points|).value))
  }

  lemma {:induction false} StrideTermsRead(terms: L.Terms, n: nat, top: seq<L.Point>, names: set<string>, root: R.Values, base: int, device: E.Device)
    requires n <= |terms| && C.TermsIn(terms, names) && CountersHeld(top, names, root, base, device)
    requires E.StrideTerms(terms, n, top).Ok?
    ensures TermsRead(E.StrideTerms(terms, n, top).value, root, base, device)
    decreases n
  {
    hide E.AttributeOf;
    if n > 0 { StrideTermsRead(terms, n - 1, top, names, root, base, device); }
  }

  lemma WiredTermsRead(child: L.Group, scopes: seq<L.Group>, names: set<string>, root: R.Values, base: int, device: E.Device)
    requires scopes != [] && C.TermsIn(child.terms, names) && CountersHeld(scopes[0].points, names, root, base, device)
    requires E.Wire(child, scopes).Ok? && E.Wire(child, scopes).value.Repeating?
    ensures TermsRead(E.Wire(child, scopes).value.stride.terms, root, base, device)
  {
    hide E.StrideTerms, TermsRead, CountersHeld, E.CountExpression, C.TermsIn;
    StrideTermsRead(child.terms, |child.terms|, scopes[0].points, names, root, base, device);
  }

  /** Every stride below a wired block is computed from counters of the model. */
  lemma {:induction false} BlockAttributes(g: L.Group, c: E.Class, scopes: seq<L.Group>, scales: map<string, int>, referenced: set<string>,
                                           names: set<string>, root: R.Values, base: int, device: E.Device)
    requires scopes != [] && E.EmitGroup(g, scales, scopes, referenced) == Ok(c) && C.Settled(g, names)
    requires CountersHeld(scopes[0].points, names, root, base, device)
    ensures AttributesRead(c, root, base, device)
    decreases c
  {
    hide E.EmitGroup, E.Wire, CountersHeld, TermsRead, C.Settled;
    C.Emits(g, scales, scopes, referenced, c);
    forall k {:trigger c.groups[k]} | 0 <= k < |c.groups| && !c.groups[k].wiring.Unwired?
      ensures c.groups[k].wiring.Repeating? ==> TermsRead(c.groups[k].wiring.stride.terms, root, base, device)
      ensures AttributesRead(c.groups[k].component, root, base, device)
    {
      C.SettledHas(g, names, k);
      if c.groups[k].wiring.Repeating? { WiredTermsRead(g.children[k], scopes + [g], names, root, base, device); }
      BlockAttributes(g.children[k], c.groups[k].component, scopes + [g], scales, referenced, names, root, base, device);
    }
  }

  /** After a read of the model, every attribute a stride is computed from holds its own register's value. */
  lemma AttributesAreRead(raw: L.RawGroup, counts: map<string, int>, g: L.Group, model: E.Class, v: L.Valuation, fill: nat,
                          device: E.Device, span: int, w: R.World)
    requires C.Deployed(raw, counts, g, w.base, v, fill, device, span) && E.EmitModel(raw, counts) == Ok(model)
    requires Serves(w, w.base, device)
    requires CountersPlain(g.points, E.CountNames(raw)) && CountersDecode(w, E.CountNames(raw))
    ensures AttributesRead(model, R.RootValues(Runtime(model, span), w), w.base, device)
  {
    hide Serves, CountersDecode, CountersPlain, L.ParseGroup, E.CountNames, C.FreeBelow, C.Filled, E.EmitFields, C.Settled, CountersHeld,
         E.EmitGroup, E.Wire, E.Scales, E.Referenced, TermsRead, R.RootValues, P.Consistent;
    var names, root := E.CountNames(raw), R.RootValues(Runtime(model, span), w);
    CountersAreHeld(raw, counts, g, model, v, fill, device, span, w);
    C.TopOpens(raw, counts, g);
    G.ChildrenEmitted(g, |g.children|, E.Scales(g.points), [g], E.Referenced(g));
    forall k {:trigger model.groups[k]} | 0 <= k < |model.groups| && !model.groups[k].wiring.Unwired?
      ensures model.groups[k].wiring.Repeating? ==> TermsRead(model.groups[k].wiring.stride.terms, root, w.base, device)
      ensures AttributesRead(model.groups[k].component, root, w.base, device)
    {
      var child := g.children[k];
      assert C.SettledIfSized(child, names);
      WiredIsSized(child, [g]);
      if model.groups[k].wiring.Repeating? { WiredTermsRead(child, [g], names, root, w.base, device); }
      BlockAttributes(child, model.groups[k].component, [g], E.Scales(g.points), E.Referenced(g), names, root, w.base, device);
    }
  }

  lemma WiredIsSized(child: L.Group, scopes: seq<L.Group>)
    requires scopes != [] && E.Wire(child, scopes).Ok? && !E.Wire(child, scopes).value.Unwired?
    ensures child.size.Some?
  {
  }

  lemma CountersAreHeld(raw: L.RawGroup, counts: map<string, int>, g: L.Group, model: E.Class, v: L.Valuation, fill: nat,
                        device: E.Device, span: int, w: R.World)
    requires C.Deployed(raw, counts, g, w.base, v, fill, device, span) && E.EmitModel(raw, counts) == Ok(model)
    requires Serves(w, w.base, device)
    requires CountersPlain(g.points, E.CountNames(raw)) && CountersDecode(w, E.CountNames(raw))
    ensures CountersHeld(g.points, E.CountNames(raw), R.RootValues(Runtime(model, span), w), w.base, device)
  {
    hide Serves, CountersDecode, CountersPlain, L.ParseGroup, E.CountNames, C.FreeBelow, C.Filled, E.EmitFields, E.EmitChildren,
         E.AttributeOf, C.CountsRead, E.Scales, E.Referenced, P.Consistent, Uint16, Runtime, R.ReadFields, ValuesOf;
    var names, n := E.CountNames(raw), |g.points|;
    ValuesAreRead(model, |model.fields|, w, span);
    FieldCount(model, span);
    forall name | name in names && E.AttributeOf(g.points, name, n).Some?
      ensures var root := R.RootValues(Runtime(model, span), w);
        name in root && root[name] == Some(device(w.base + E.AttributeOf(g.points, name, n).value))
    {
      AttributeIsRead(g.points, n, E.Referenced(g), E.Scales(g.points), name, names, w, device);
      AttributeImplemented(g.points, n, name, names, w.base, device, v);
    }
  }

  lemma {:induction false} AttributeImplemented(points: seq<L.Point>, n: nat, name: string, names: set<string>, base: int, device: E.Device, v: L.Valuation)
    requires n <= |points| && C.CountsRead(points, names, base, device, v) && name in names && E.AttributeOf(points, name, n).Some?
    ensures Uint16(device(base + E.AttributeOf(points, name, n).value)) == Some(device(base + E.AttributeOf(points, name, n).value))
  {
    if !(points[n - 1].raw.name == name && !E.Header(points[n - 1])) {
      AttributeImplemented(points, n - 1, name, names, base, device, v);
    }
  }

  // ----- from the definition to the live tree -----

  /** A field of a live instance is read, and its scale register too, where its class says. */
  lemma ResolveIsPlaced(f: E.Field, inBlock: bool, at: E.Place)
    ensures R.Resolve(FieldOf(f), inBlock, at.base, at.shift) ==
            Reading.ResolvedField(f.name, E.Address(f, at), f.width,
                                  if f.scale.Some? then Some(E.ScaleAddress(f, inBlock, at)) else None, Merging.Holding)
  {
  }

  /** The words from an address on. */
  function RegistersAt(w: R.World, address: int, width: nat): seq<int> {
    seq(width, k requires 0 <= k < width => w.image(Merging.Holding, address + k))
  }

  /** The register a scaled point's factor is at: of its own block, laid out from `start` on, or else of the model's. */
  ghost predicate FactorAt(factor: int, raws: seq<L.RawPoint>, start: int, i: nat, top: seq<L.RawPoint>, base: int)
    requires i < |raws| && raws[i].scale.ByPoint?
  {
    var name := raws[i].scale.name;
    if C.DeclaresScale(raws, name) then
      exists j: nat :: j < |raws| && C.LastScale(raws, name, j) && factor == start + L.PointsSize(raws, j)
    else exists j: nat :: j < |top| && C.LastScale(top, name, j) && factor == base + L.PointsSize(top, j)
  }

  /** The value is the decode of the point's own registers, with its factor's register as a signed exponent. */
  ghost predicate HasValue(value: Option<int>, raws: seq<L.RawPoint>, start: int, i: nat, top: seq<L.RawPoint>, w: R.World)
    requires i < |raws|
  {
    var at, width := start + L.PointsSize(raws, i), E.WidthOf(raws[i]);
    if !C.ScaledByPoint(raws[i]) then
      value == w.decode(Reading.ResolvedField(raws[i].name, at, width, None, Merging.Holding), RegistersAt(w, at, width), None)
    else
      exists factor :: FactorAt(factor, raws, start, i, top, w.base) &&
        value == w.decode(Reading.ResolvedField(raws[i].name, at, width, Some(factor), Merging.Holding), RegistersAt(w, at, width),
                          Some(Codec.DecodeInt([w.image(Merging.Holding, factor)], true, Codec.Big)))
  }

  /** The point is the last of its name among those that are fields. */
  ghost predicate LastShown(raws: seq<L.RawPoint>, i: nat, model: L.RawGroup, header: bool) {
    && i < |raws| && G.Shown(raws[i], model, header)
    && forall k {:trigger raws[k]} :: i < k < |raws| && G.Shown(raws[k], model, header) ==> raws[k].name != raws[i].name
  }

  /** An instance as the definition has it: a value for every point that is a field, decoded from where the point comes. */
  ghost predicate InPlace(v: R.View, raws: seq<L.RawPoint>, start: int, model: L.RawGroup, w: R.World, header: bool) {
    && (forall name :: name in v.values <==> exists i: nat :: LastShown(raws, i, model, header) && raws[i].name == name)
    && (forall i: nat :: LastShown(raws, i, model, header) ==>
          raws[i].name in v.values && HasValue(v.values[raws[i].name], raws, start, i, model.points, w))
  }

  /** The last of the first `n` fields so named. */
  ghost predicate LastField(fields: seq<E.Field>, n: nat, j: nat) {
    j < n <= |fields| && forall k :: j < k < n ==> fields[k].name != fields[j].name
  }

  /** Each name holds what the last of the first `n` fields so named read. */
  ghost predicate Held(values: R.Values, fields: seq<E.Field>, n: nat, got: seq<Option<int>>)
    requires n <= |fields| == |got|
  {
    && (forall j: nat :: LastField(fields, n, j) ==> fields[j].name in values && values[fields[j].name] == got[j])
    && (forall name :: name in values ==> exists j: nat :: j < |fields| && LastField(fields, n, j) && fields[j].name == name)
  }

  lemma HeldOneMore(before: R.Values, fields: seq<E.Field>, n: nat, got: seq<Option<int>>)
    requires 0 < n <= |fields| == |got| && Held(before, fields, n - 1, got)
    ensures Held(before[fields[n - 1].name := got[n - 1]], fields, n, got)
  {
    var last := fields[n - 1];
    var values := before[last.name := got[n - 1]];
    forall j: nat | LastField(fields, n, j) ensures fields[j].name in values && values[fields[j].name] == got[j] {
      if j < n - 1 { assert LastField(fields, n - 1, j) && last.name != fields[j].name; }
    }
    forall name | name in values ensures exists j: nat :: j < |fields| && LastField(fields, n, j) && fields[j].name == name {
      if name == last.name {
        assert LastField(fields, n, n - 1);
      } else {
        var j: nat :| j < |fields| && LastField(fields, n - 1, j) && fields[j].name == name;
        assert LastField(fields, n, j);
      }
    }
  }

  function ReadsOf(c: E.Class, shift: int, w: R.World, span: int): (got: seq<Option<int>>)
    ensures |got| == |c.fields|
    ensures forall j {:trigger got[j]} :: 0 <= j < |got| ==> got[j] == R.ValueOf(FieldOf(c.fields[j]), Runtime(c, span), shift, w)
  {
    seq(|c.fields|, j requires 0 <= j < |c.fields| => R.ValueOf(FieldOf(c.fields[j]), Runtime(c, span), shift, w))
  }

  lemma {:induction false} FieldsHeld(c: E.Class, n: nat, shift: int, w: R.World, span: int)
    requires n <= |c.fields|
    ensures Held(R.ReadFields(map[], Runtime(c, span), n, shift, w), c.fields, n, ReadsOf(c, shift, w, span))
  {
    hide Held, R.ValueOf, ReadsOf, Runtime;
    RuntimeFields(c, span);
    if n > 0 {
      FieldsHeld(c, n - 1, shift, w, span);
      NameKept(c.fields[n - 1]);
      assert ReadsOf(c, shift, w, span)[n - 1] == R.ValueOf(FieldOf(c.fields[n - 1]), Runtime(c, span), shift, w);
      HeldOneMore(R.ReadFields(map[], Runtime(c, span), n - 1, shift, w), c.fields, n, ReadsOf(c, shift, w, span));
    } else {
      NothingHeld(c.fields, ReadsOf(c, shift, w, span));
    }
  }

  lemma NothingHeld(fields: seq<E.Field>, got: seq<Option<int>>)
    requires |fields| == |got|
    ensures Held(map[], fields, 0, got)
  {
  }

  lemma RuntimeFields(c: E.Class, span: int)
    ensures Runtime(c, span).fields == FieldsOf(c.fields) && |Runtime(c, span).fields| == |c.fields|
  {
  }

  lemma NameKept(f: E.Field)
    ensures FieldOf(f).name == f.name
  {
  }

  /** A field at a point's place reads the point's value. */
  lemma FieldHasValue(f: E.Field, c: E.Class, at: E.Place, raws: seq<L.RawPoint>, start: int, i: nat, top: seq<L.RawPoint>, w: R.World, span: int)
    requires i < |raws| && at.base == w.base && C.FieldAt(f, c.scaleInBlock, at, raws, start, i, top, w.base)
    ensures HasValue(R.ValueOf(FieldOf(f), Runtime(c, span), at.shift, w), raws, start, i, top, w)
  {
    hide C.DeclaresScale, C.LastScale, L.PointsSize, E.WidthOf, Reading.Exponent;
    ResolveIsPlaced(f, c.scaleInBlock, at);
    var address := E.Address(f, at);
    assert Reading.Words(w.image, Merging.Holding, address, f.width) == RegistersAt(w, address, f.width);
    if f.scale.Some? {
      var factor := E.ScaleAddress(f, c.scaleInBlock, at);
      Reading.ExponentIsSigned(w.image(Merging.Holding, factor));
      assert FactorAt(factor, raws, start, i, top, w.base);
    }
  }

  /** The fields, one for one, are the points that `order` lists. */
  ghost predicate Corresponds(fields: seq<E.Field>, order: seq<nat>, raws: seq<L.RawPoint>, model: L.RawGroup, header: bool) {
    && |order| == |fields|
    && (forall j: nat {:trigger order[j]} :: j < |order| ==> order[j] < |raws| && fields[j].name == raws[order[j]].name)
    && (forall j: nat :: j < |order| ==> (LastField(fields, |fields|, j) <==> LastShown(raws, order[j], model, header)))
    && (forall i: nat :: LastShown(raws, i, model, header) ==> i in order)
  }

  lemma Correspond(c: E.Class, at: E.Place, raws: seq<L.RawPoint>, start: int, order: seq<nat>, model: L.RawGroup, header: bool, base: int)
    requires C.Lists(order, raws, model, header) && C.FieldsAt(c, at, raws, start, order, model, base)
    ensures Corresponds(c.fields, order, raws, model, header)
  {
    hide G.Shown, C.FieldAt;
    forall j: nat | j < |order| ensures order[j] < |raws| && c.fields[j].name == raws[order[j]].name {
      assert C.FieldAt(c.fields[j], c.scaleInBlock, at, raws, start, order[j], model.points, base);
      FieldNamed(c.fields[j], c, at, raws, start, order[j], model.points, base);
    }
    forall j: nat | j < |order| ensures LastField(c.fields, |c.fields|, j) <==> LastShown(raws, order[j], model, header) {
      LastAlike(c.fields, order, raws, model, header, j);
    }
  }

  lemma ValuesInPlace(c: E.Class, at: E.Place, raws: seq<L.RawPoint>, start: int, model: L.RawGroup, header: bool, v: R.View, w: R.World, span: int)
    requires at.base == w.base && C.ReadsInSequence(c, at, raws, start, model, w.base, header)
    requires v.values == R.ReadFields(map[], Runtime(c, span), |c.fields|, at.shift, w)
    ensures InPlace(v, raws, start, model, w, header)
  {
    hide HasValue, G.Shown, C.FieldAt, R.ReadFields, R.ValueOf, FieldOf, Runtime, LastField, LastShown, C.Lists, Corresponds;
    var order :| C.Lists(order, raws, model, header) && C.FieldsAt(c, at, raws, start, order, model, w.base);
    var got := ReadsOf(c, at.shift, w, span);
    FieldsHeld(c, |c.fields|, at.shift, w, span);
    Correspond(c, at, raws, start, order, model, header, w.base);
    forall j: nat | j < |order| ensures order[j] < |raws| && HasValue(got[j], raws, start, order[j], model.points, w) {
      assert C.FieldAt(c.fields[j], c.scaleInBlock, at, raws, start, order[j], model.points, w.base);
      FieldHasValue(c.fields[j], c, at, raws, start, order[j], model.points, w, span);
    }
    HeldInPlace(v, c.fields, got, order, raws, start, model, w, header);
  }

  lemma HeldInPlace(v: R.View, fields: seq<E.Field>, got: seq<Option<int>>, order: seq<nat>, raws: seq<L.RawPoint>, start: int,
                    model: L.RawGroup, w: R.World, header: bool)
    requires |got| == |fields| && Corresponds(fields, order, raws, model, header) && Held(v.values, fields, |fields|, got)
    requires forall j: nat {:trigger order[j]} :: j < |order| ==> order[j] < |raws| && HasValue(got[j], raws, start, order[j], model.points, w)
    ensures InPlace(v, raws, start, model, w, header)
  {
    hide HasValue, LastField;
    forall i: nat | LastShown(raws, i, model, header)
      ensures raws[i].name in v.values && HasValue(v.values[raws[i].name], raws, start, i, model.points, w)
    {
      assert i in order;
      var j: nat :| j < |order| && order[j] == i;
      assert LastField(fields, |fields|, j);
    }
    forall name | name in v.values ensures exists i: nat :: LastShown(raws, i, model, header) && raws[i].name == name {
      var j: nat :| j < |fields| && LastField(fields, |fields|, j) && fields[j].name == name;
      assert LastShown(raws, order[j], model, header) && raws[order[j]].name == name;
    }
  }

  lemma FieldNamed(f: E.Field, c: E.Class, at: E.Place, raws: seq<L.RawPoint>, start: int, i: nat, top: seq<L.RawPoint>, base: int)
    requires i < |raws| && C.FieldAt(f, c.scaleInBlock, at, raws, start, i, top, base)
    ensures f.name == raws[i].name
  {
  }

  lemma LastAlike(fields: seq<E.Field>, order: seq<nat>, raws: seq<L.RawPoint>, model: L.RawGroup, header: bool, j: nat)
    requires C.Lists(order, raws, model, header) && |order| == |fields| && j < |order|
    requires forall k: nat :: k < |order| ==> order[k] < |raws| && fields[k].name == raws[order[k]].name
    ensures LastField(fields, |fields|, j) <==> LastShown(raws, order[j], model, header)
  {
    hide G.Shown;
    assert order[j] in order;
    if LastField(fields, |fields|, j) {
      forall k {:trigger raws[k]} | order[j] < k < |raws| && G.Shown(raws[k], model, header) ensures raws[k].name != raws[order[j]].name {
        assert k in order;
        var m :| 0 <= m < |order| && order[m] == k;
        assert j < m;
      }
    }
    if LastShown(raws, order[j], model, header) {
      forall k | j < k < |fields| ensures fields[k].name != fields[j].name {
        assert order[k] in order && order[j] < order[k];
      }
    }
  }

  /**
   The whole way: generate a model's classes, build its component, and update it any number of
   times against a device that may change in between. If the last update succeeds, every instance
   the definition lays out for the counts the device now holds is in the tree, its class reads the
   points of its block where they come in the sequence, and its values are those registers decoded.
   */
  lemma UpdatedModelIsSequential(raw: L.RawGroup, counts: map<string, int>, g: L.Group, model: E.Class, path: seq<L.Step>,
                                 v: L.Valuation, fill: nat, device: E.Device, span: int, worlds: seq<R.World>)
    requires worlds != []
    requires var w := worlds[|worlds| - 1];
      && C.Deployed(raw, counts, g, w.base, v, fill, device, span) && E.EmitModel(raw, counts) == Ok(model)
      && Serves(w, w.base, device) && CountersPlain(g.points, E.CountNames(raw)) && CountersDecode(w, E.CountNames(raw))
    requires L.ValidPath(raw, path, v, fill) && (path == [] || G.Wires(raw, counts, path[0].group))
    requires R.UpdateAll(R.Build(Runtime(model, span), 0), Runtime(model, span), worlds).Ok?
    ensures var rt, w := Runtime(model, span), worlds[|worlds| - 1];
      var live := R.UpdateAll(R.Build(rt, 0), rt, worlds).value;
      var there := P.Translated(raw, g, path, v, fill);
      var seen := ViewAt(R.Seen(live, rt), model, there, span);
      && seen.Some?
      && C.ReadsInSequence(E.ClassAt(model, there), E.Place(w.base, seen.value.shift), L.GroupAt(raw, path).points,
                           w.base + L.OffsetOf(raw, path, v, fill), raw, w.base, path == [])
      && InPlace(seen.value, L.GroupAt(raw, path).points, w.base + L.OffsetOf(raw, path, v, fill), raw, w, path == [])
  {
    hide R.UpdateAll, R.Build, R.Seen, R.Coherent, R.Ideal, C.Deployed, G.Wires, C.ReadsInSequence, InPlace, E.EmitModel, L.ValidPath, L.OffsetOf,
         Serves, CountersPlain, CountersDecode, AttributesRead, ViewAt, P.Translated, E.Exists, E.PlaceOf, E.ClassAt, L.GroupAt, E.Referenced, Runtime, R.RootValues, R.ReadFields;
    var rt, w := Runtime(model, span), worlds[|worlds| - 1];
    var there := P.Translated(raw, g, path, v, fill);
    R.AnyRunEndsIdeal(rt, worlds);
    AttributesAreRead(raw, counts, g, model, v, fill, device, span, w);
    var view := R.Seen(R.UpdateAll(R.Build(rt, 0), rt, worlds).value, rt);
    var root := R.RootValues(rt, w);
    C.CompiledLayoutIsSequential(raw, counts, g, model, path, w.base, v, fill, device, span);
    IdealIsBuilt(model, view, there, 0, root, w, w.base, device, span);
    var at := E.PlaceOf(model, there, E.Place(w.base, 0), device, span);
    IdealHere(Runtime(E.ClassAt(model, there), span), at.shift, root, w);
    FieldCount(E.ClassAt(model, there), span);
    assert at == E.Place(w.base, at.shift);
    ValuesInPlace(E.ClassAt(model, there), at, L.GroupAt(raw, path).points, w.base + L.OffsetOf(raw, path, v, fill), raw, path == [],
                  ViewAt(view, model, there, span).value, w, span);
  }

  /** And nothing else is in it: every instance of the live tree is one the definition lays out. */
  lemma NothingElseIsLive(raw: L.RawGroup, counts: map<string, int>, g: L.Group, model: E.Class, there: seq<L.Step>,
                          v: L.Valuation, fill: nat, device: E.Device, span: int, worlds: seq<R.World>) returns (path: seq<L.Step>)
    requires worlds != []
    requires var w := worlds[|worlds| - 1];
      && C.Deployed(raw, counts, g, w.base, v, fill, device, span) && E.EmitModel(raw, counts) == Ok(model)
      && Serves(w, w.base, device) && CountersPlain(g.points, E.CountNames(raw)) && CountersDecode(w, E.CountNames(raw))
    requires R.UpdateAll(R.Build(Runtime(model, span), 0), Runtime(model, span), worlds).Ok?
    requires ViewAt(R.Seen(R.UpdateAll(R.Build(Runtime(model, span), 0), Runtime(model, span), worlds).value, Runtime(model, span)),
                    model, there, span).Some?
    ensures L.ValidPath(raw, path, v, fill) && P.Translated(raw, g, path, v, fill) == there
  {
    hide R.UpdateAll, R.Build, R.Seen, R.Coherent, R.Ideal, C.Deployed, E.EmitModel, L.ValidPath, Serves, CountersPlain, CountersDecode,
         AttributesRead, ViewAt, P.Translated, E.Exists, E.PlaceOf, Runtime, R.RootValues;
    var rt, w := Runtime(model, span), worlds[|worlds| - 1];
    R.AnyRunEndsIdeal(rt, worlds);
    AttributesAreRead(raw, counts, g, model, v, fill, device, span, w);
    IdealIsBuilt(model, R.Seen(R.UpdateAll(R.Build(rt, 0), rt, worlds).value, rt), there, 0, R.RootValues(rt, w), w, w.base, device, span);
    path := C.NothingElseIsBuilt(raw, counts, g, model, there, w.base, v, fill, device, span);
  }

  lemma IdealHere(c: R.Component, shift: int, root: R.Values, w: R.World)
    requires R.Ideal(c, shift, root, w).Ok?
    ensures R.Ideal(c, shift, root, w).value.shift == shift
    ensures R.Ideal(c, shift, root, w).value.values == R.ReadFields(map[], c, |c.fields|, shift, w)
  {
    hide R.IdealStatics, R.IdealPolled, R.ReadFields, R.ReadCounts;
  }

  lemma FieldCount(c: E.Class, span: int)
    ensures |Runtime(c, span).fields| == |c.fields|
  {
  }
}
