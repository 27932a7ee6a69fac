/**
 Placing the points and nested blocks of a SunSpec model definition
 (`_parse_points` and `_parse_group` in src/modbus_connection/model/sunspec/generate.py).

 A definition is a tree of groups. Laid out sequentially, a group is its points
 one after the other, then every instance of each nested group end to end. The
 generator compiles that to instance-0 addresses and strides that are linear in
 the values of count points.
 */
module Layout {
  import opened Wrappers

  /** How often a group repeats: a number, or the value of a named point. */
  datatype Count = Fixed(n: int) | Named(point: string)

  /** The type of a point; `Text` is string, and `ScaleFactor` sunssf. */
  datatype Kind =
    | Int16 | Uint16 | Int32 | Uint32 | Int64 | Uint64 | Acc16 | Acc32 | Acc64
    | Enum16 | Enum32 | Bitfield16 | Bitfield32 | Bitfield64 | Text | CountPoint
    | ScaleFactor | Float32 | Float64 | IpAddr | Ipv6Addr | Eui48 | Pad | Unsupported(type_: string)

  datatype Scale = Unscaled | Power(exponent: int) | ByPoint(name: string)

  datatype RawPoint = RawPoint(name: string, kind: Kind, size: nat, scale: Scale)

  datatype RawGroup = RawGroup(name: string, count: Count, points: seq<RawPoint>, groups: seq<RawGroup>)

  // ----- the sequential layout a definition denotes -----

  /** The value each count point holds on the device. */
  type Valuation = string -> nat

  /** How many instances a group has; `fill` of them where the definition only says "to the end of the model". */
  function Instances(count: Count, v: Valuation, fill: nat): nat {
    match count
    case Named(point) => v(point)
    case Fixed(n) => if n > 0 then n else fill
  }

  /** Registers of the first `n` points. */
  function PointsSize(points: seq<RawPoint>, n: nat): nat
    requires n <= |points|
  {
    if n == 0 then 0 else PointsSize(points, n - 1) + points[n - 1].size
  }

  /** Registers one instance of a group occupies. */
  function Registers(raw: RawGroup, v: Valuation, fill: nat): nat
    decreases raw, |raw.groups| + 1
  {
    PointsSize(raw.points, |raw.points|) + SubsSize(raw, |raw.groups|, v, fill)
  }

  /** Registers all instances of the first `k` nested groups occupy. */
  function SubsSize(raw: RawGroup, k: nat, v: Valuation, fill: nat): nat
    requires k <= |raw.groups|
    decreases raw, k
  {
    if k == 0 then 0
    else SubsSize(raw, k - 1, v, fill) + Instances(raw.groups[k - 1].count, v, fill) * Registers(raw.groups[k - 1], v, fill)
  }

  /** One step down a definition: which nested group, and which instance of it. */
  datatype Step = Step(group: nat, instance: nat)

  ghost predicate ValidPath(raw: RawGroup, path: seq<Step>, v: Valuation, fill: nat)
    decreases |path|
  {
    path == [] ||
    (&& path[0].group < |raw.groups|
     && path[0].instance < Instances(raw.groups[path[0].group].count, v, fill)
     && ValidPath(raw.groups[path[0].group], path[1..], v, fill))
  }

  function GroupAt(raw: RawGroup, path: seq<Step>): RawGroup
    decreases |path|
  {
    if path == [] then raw
    else if path[0].group < |raw.groups| then GroupAt(raw.groups[path[0].group], path[1..])
    else raw
  }

  /** Where an instance starts, counted from the start of the outermost group. */
  function OffsetOf(raw: RawGroup, path: seq<Step>, v: Valuation, fill: nat): nat
    requires ValidPath(raw, path, v, fill)
    decreases |path|
  {
    if path == [] then 0
    else
      var sub := raw.groups[path[0].group];
      PointsSize(raw.points, |raw.points|) + SubsSize(raw, path[0].group, v, fill)
      + path[0].instance * Registers(sub, v, fill)
      + OffsetOf(sub, path[1..], v, fill)
  }

  // ----- parsing -----

  datatype Point = Point(raw: RawPoint, address: int)

  /** Registers per instance on top of a fixed size, per count point. */
  type Terms = seq<(string, int)>

  datatype Group = Group(
    name: string, start: int, count: Count, points: seq<Point>, children: seq<Group>,
    size: Option<int>, terms: Terms, aliases: seq<string>)

  datatype GenerationError = GenerationError

  /** Consecutive addresses from `start`. */
  function ParsePoints(raws: seq<RawPoint>, start: int): (points: seq<Point>)
    ensures |points| == |raws|
    ensures forall i {:trigger points[i]} :: 0 <= i < |raws| ==> points[i] == Point(raws[i], start + PointsSize(raws, i))
  {
    seq(|raws|, i requires 0 <= i < |raws| => Point(raws[i], start + PointsSize(raws, i)))
  }

  method PlacePoints(raws: seq<RawPoint>, start: int) returns (points: seq<Point>)
    ensures points == ParsePoints(raws, start)
  {
    points := [];
    var address := start;
    for i := 0 to |raws|
      invariant address == start + PointsSize(raws, i)
      invariant |points| == i
      invariant forall j {:trigger points[j]} :: 0 <= j < i ==> points[j] == Point(raws[j], start + PointsSize(raws, j))
    {
      points := points + [Point(raws[i], address)];
      address := address + raws[i].size;
    }
  }

  /** The statically known repeat count (`_fixed_count`). */
  function FixedCount(count: Count): Option<int> {
    if count.Fixed? && count.n > 0 then Some(count.n) else None
  }

  /** A block's layout, names of blocks left out (`_shape`). */
  function Shape(raw: RawGroup): RawGroup {
    RawGroup("", raw.count, raw.points, seq(|raw.groups|, i requires 0 <= i < |raw.groups| => Shape(raw.groups[i])))
  }

  /** How many siblings from `k` on have the shape of the one at `k`, once `n` are known to. */
  function SameShaped(groups: seq<RawGroup>, k: nat, n: nat): (m: nat)
    requires k < |groups| && 0 < n <= |groups| - k
    ensures n <= m <= |groups| - k
    decreases |groups| - k - n
  {
    if k + n < |groups| && Shape(groups[k + n]) == Shape(groups[k]) then SameShaped(groups, k, n + 1) else n
  }

  function NamesOf(groups: seq<RawGroup>): (names: seq<string>)
    ensures |names| == |groups|
  {
    seq(|groups|, i requires 0 <= i < |groups| => groups[i].name)
  }

  /** Add registers under a count point. */
  function AddTerm(terms: Terms, name: string, registers: int): Terms {
    if terms == [] then [(name, registers)]
    else if terms[0].0 == name then [(name, terms[0].1 + registers)] + terms[1..]
    else [terms[0]] + AddTerm(terms[1..], name, registers)
  }

  /** Add the first `n` of another block's terms, `count` times each. */
  function AddTerms(terms: Terms, more: Terms, count: int, n: nat): Terms
    requires n <= |more|
  {
    if n == 0 then terms
    else AddTerm(AddTerms(terms, more, count, n - 1), more[n - 1].0, count * more[n - 1].1)
  }

  /** The variables of the loop over nested groups. */
  datatype Parsing = Parsing(offset: int, children: seq<Group>, size: Option<int>, terms: Terms)

  /** How many siblings the next parsed group stands for. */
  function Collapsed(groups: seq<RawGroup>, k: nat, child: Group): (m: nat)
    requires k < |groups|
    ensures 1 <= m <= |groups| - k
  {
    if FixedCount(child.count).Some? && child.terms != [] then SameShaped(groups, k, 1) else 1
  }

  /** A parsed group, renamed and multiplied when it stands for several siblings. */
  function Region(groups: seq<RawGroup>, k: nat, child: Group): Group
    requires k < |groups|
  {
    var m := Collapsed(groups, k, child);
    if m > 1 then child.(name := "region", count := Fixed(child.count.n * m), aliases := NamesOf(groups[k..k + m])) else child
  }

  /** What one parsed group adds to the offset, size and terms. */
  function Advance(st: Parsing, child: Group, start: int): Parsing {
    var grown := st.(children := st.children + [child]);
    var count := FixedCount(child.count);
    if child.size.None? then grown.(size := None)
    else if count.None? then
      if child.count.Named? && child.terms == []
      then grown.(terms := AddTerm(st.terms, child.count.point, child.size.value))
      else grown.(size := None)
    else
      var offset := st.offset + count.value * child.size.value;
      grown.(offset := offset, size := Some(offset - start),
             terms := AddTerms(st.terms, child.terms, count.value, |child.terms|))
  }

  function ParseSubs(raw: RawGroup, k: nat, st: Parsing, start: int, counts: map<string, int>): Result<Parsing, GenerationError>
    requires k <= |raw.groups|
    decreases raw, |raw.groups| - k
  {
    if k == |raw.groups| then Ok(st)
    else if st.size.None? || st.terms != [] then Err(GenerationError)
    else
      var parsed := ParseGroup(raw.groups[k], st.offset, counts);
      if parsed.Err? then Err(GenerationError)
      else ParseSubs(raw, k + Collapsed(raw.groups, k, parsed.value),
                     Advance(st, Region(raw.groups, k, parsed.value), start), start, counts)
  }

  /** The count a group is emitted with, once overrides are applied. */
  function Overridden(count: Count, counts: map<string, int>): Count {
    if count.Named? && count.point in counts then Fixed(counts[count.point]) else count
  }

  function StartParsing(raw: RawGroup, start: int): Parsing {
    var fixed := PointsSize(raw.points, |raw.points|);
    Parsing(start + fixed, [], Some(fixed), [])
  }

  function Parsed(raw: RawGroup, start: int, counts: map<string, int>, st: Parsing): Group {
    Group(raw.name, start, Overridden(raw.count, counts), ParsePoints(raw.points, start), st.children, st.size, st.terms, [])
  }

  function ParseGroup(raw: RawGroup, start: int, counts: map<string, int>): Result<Group, GenerationError>
    decreases raw, |raw.groups| + 1
  {
    var st := ParseSubs(raw, 0, StartParsing(raw, start), start, counts);
    if st.Err? then Err(GenerationError) else Ok(Parsed(raw, start, counts, st.value))
  }

  method PlaceGroup(raw: RawGroup, start: int, counts: map<string, int>) returns (r: Result<Group, GenerationError>)
    ensures r == ParseGroup(raw, start, counts)
    decreases raw
  {
    hide Shape, PointsSize, AddTerms, AddTerm;
    var points := PlacePoints(raw.points, start);
    var fixed := PointsSize(raw.points, |raw.points|);
    var offset := start + fixed;
    var children: seq<Group> := [];
    var size: Option<int> := Some(fixed);
    var terms: Terms := [];
    var k := 0;
    while k < |raw.groups|
      invariant k <= |raw.groups|
      invariant ParseSubs(raw, 0, StartParsing(raw, start), start, counts) ==
                ParseSubs(raw, k, Parsing(offset, children, size, terms), start, counts)
    {
      if size.None? || terms != [] {
        return Err(GenerationError);
      }
      var parsed := PlaceGroup(raw.groups[k], offset, counts);
      if parsed.Err? {
        return Err(GenerationError);
      }
      ghost var before := Parsing(offset, children, size, terms);
      var child := Region(raw.groups, k, parsed.value);
      k := k + Collapsed(raw.groups, k, parsed.value);
      var count := FixedCount(child.count);
      children := children + [child];
      if child.size.None? {
        size := None;
      } else if count.None? {
        if child.count.Named? && child.terms == [] {
          terms := AddTerm(terms, child.count.point, child.size.value);
        } else {
          size := None;
        }
      } else {
        offset := offset + count.value * child.size.value;
        size := Some(offset - start);
        terms := AddTerms(terms, child.terms, count.value, |child.terms|);
      }
      assert Parsing(offset, children, size, terms) == Advance(before, child, start);
    }
    r := Ok(Parsed(raw, start, counts, Parsing(offset, children, size, terms)));
  }
}
