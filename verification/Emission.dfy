/**
 What the generator emits for a placed definition, and where the emitted classes
 read at run time (`_count_expression` to `_generate_model` in
 src/modbus_connection/model/sunspec/generate.py, with the address rules of
 component.py and _component_base.py).
 */
module Emission {
  import opened Wrappers
  import opened Layout
  import opened Placement

  // ----- emitted classes -----

  datatype CountRef = Literal(n: int) | Register(address: int, inBlock: bool)

  /** A multiple of an attribute of the model class, and where that attribute reads. */
  datatype Term = Term(name: string, address: int, registers: int)

  /** Registers per instance: a number plus a multiple of each count point of the model. */
  datatype Stride = Stride(size: int, terms: seq<Term>)

  datatype Wiring = Repeating(count: CountRef, stride: Stride) | ToModelEnd(start: int, width: int) | Unwired

  datatype Field = Field(name: string, address: int, width: nat, scale: Option<int>)

  datatype Class = Class(fields: seq<Field>, scaleInBlock: bool, groups: seq<Repeat>)

  datatype Repeat = Repeat(wiring: Wiring, component: Class, aliases: seq<string>)

  /** The address of the first of these points so named, from `i` on. */
  function FirstNamed(points: seq<Point>, name: string, i: nat): Option<int>
    requires i <= |points|
    decreases |points| - i
  {
    if i == |points| then None
    else if points[i].raw.name == name then Some(points[i].address)
    else FirstNamed(points, name, i + 1)
  }

  /** The addresses of the points of type count, in order. */
  function CountPoints(points: seq<Point>, n: nat): seq<int>
    requires n <= |points|
  {
    if n == 0 then []
    else CountPoints(points, n - 1) + if points[n - 1].raw.kind == CountPoint then [points[n - 1].address] else []
  }

  /** Where a nested block's count comes from (`_count_expression`). */
  function CountExpression(count: Count, scopes: seq<Group>): Result<Option<CountRef>, GenerationError>
    requires scopes != []
  {
    var enclosing, top := scopes[|scopes| - 1].points, scopes[0].points;
    match count
    case Named(name) =>
      if FirstNamed(enclosing, name, 0).Some? then Ok(Some(Register(FirstNamed(enclosing, name, 0).value, true)))
      else if FirstNamed(top, name, 0).Some? then Ok(Some(Register(FirstNamed(top, name, 0).value, false)))
      else Err(GenerationError)
    case Fixed(n) =>
      if n > 0 then Ok(Some(Literal(n)))
      else if |CountPoints(enclosing, |enclosing|)| == 1 then Ok(Some(Register(CountPoints(enclosing, |enclosing|)[0], true)))
      else Ok(None)
  }

  /** ID and L are the model header, declared by every model's base class. */
  predicate Header(point: Point) {
    point.raw.name == "ID" || point.raw.name == "L"
  }

  /** The address an attribute of the model class reads: that of the last point so named. */
  function AttributeOf(points: seq<Point>, name: string, n: nat): Option<int>
    requires n <= |points|
  {
    if n == 0 then None
    else if points[n - 1].raw.name == name && !Header(points[n - 1]) then Some(points[n - 1].address)
    else AttributeOf(points, name, n - 1)
  }

  function StrideTerms(terms: Terms, n: nat, top: seq<Point>): Result<seq<Term>, GenerationError>
    requires n <= |terms|
  {
    if n == 0 then Ok([])
    else
      var rest, attribute := StrideTerms(terms, n - 1, top), AttributeOf(top, terms[n - 1].0, |top|);
      if rest.Ok? && attribute.Some? then Ok(rest.value + [Term(terms[n - 1].0, attribute.value, terms[n - 1].1)]) else Err(GenerationError)
  }

  /** A repeated block's stride, or nothing where no number gives it (`_stride_expression`). */
  function StrideExpression(child: Group, top: seq<Point>): Result<Option<Stride>, GenerationError> {
    if child.size.None? then Ok(None)
    else
      var terms := StrideTerms(child.terms, |child.terms|, top);
      if terms.Ok? then Ok(Some(Stride(child.size.value, terms.value))) else Err(GenerationError)
  }

  /** A stride that is a number has to be positive, or importing the generated module raises. */
  predicate Usable(stride: Stride) {
    stride.terms != [] || stride.size > 0
  }

  /** The field that repeats a nested block in its parent (`_wire_child`). */
  function Wire(child: Group, scopes: seq<Group>): Result<Wiring, GenerationError>
    requires scopes != []
  {
    var counted := CountExpression(child.count, scopes);
    if counted.Err? then Err(GenerationError)
    else if counted.value.None? then
      if |scopes| != 1 || child.size.None? || child.size.value == 0 || child.terms != [] then Ok(Unwired)
      else if child.start < 2 then Err(GenerationError)
      else Ok(ToModelEnd(child.start, child.size.value))
    else
      var stride := StrideExpression(child, scopes[0].points);
      if stride.Ok? && stride.value.Some? && Usable(stride.value.value) then Ok(Repeating(counted.value.value, stride.value.value)) else Err(GenerationError)
  }

  /** The addresses of scale-factor points by name; the last of a name counts. */
  function ScaleAddresses(points: seq<Point>, n: nat): map<string, int>
    requires n <= |points|
  {
    if n == 0 then map[]
    else
      var rest := ScaleAddresses(points, n - 1);
      if points[n - 1].raw.kind == ScaleFactor then rest[points[n - 1].raw.name := points[n - 1].address] else rest
  }

  function Scales(points: seq<Point>): map<string, int> {
    ScaleAddresses(points, |points|)
  }

  /** The scale-factor points that points of these blocks name (`_referenced_scale_factors`). */
  function Referenced(g: Group): set<string>
    decreases g, |g.children| + 1
  {
    (set p | p in g.points && p.raw.scale.ByPoint? :: p.raw.scale.name) + ReferencedBelow(g, |g.children|)
  }

  function ReferencedBelow(g: Group, k: nat): set<string>
    requires k <= |g.children|
    decreases g, k
  {
    if k == 0 then {} else ReferencedBelow(g, k - 1) + Referenced(g.children[k - 1])
  }

  /** Some point of the block is scaled by a factor of its own block. */
  predicate ScaledInside(points: seq<Point>) {
    exists p :: p in points && p.raw.scale.ByPoint? && p.raw.scale.name in Scales(points)
  }

  /** Some point of the block is scaled by a factor of the fixed block only. */
  predicate ScaledByTop(points: seq<Point>, top: map<string, int>) {
    exists p :: p in points && p.raw.scale.ByPoint? && p.raw.scale.name !in Scales(points) && p.raw.scale.name in top
  }

  /** Some point of the block is scaled by a factor of a repeated block around it. */
  predicate ScaledBetween(points: seq<Point>, top: map<string, int>, scopes: seq<Group>) {
    exists p, i :: p in points && p.raw.scale.ByPoint? && p.raw.scale.name !in Scales(points) && p.raw.scale.name !in top
                   && 1 <= i < |scopes| && p.raw.scale.name in Scales(scopes[i].points)
  }

  /** The scale factors a repeated block's points read, and whether they move with it (`_block_scales`). */
  function BlockScales(points: seq<Point>, top: map<string, int>, scopes: seq<Group>): Result<(map<string, int>, bool), GenerationError> {
    if ScaledBetween(points, top, scopes) then Err(GenerationError)
    else if ScaledInside(points) && ScaledByTop(points, top) then Err(GenerationError)
    else if ScaledInside(points) then Ok((Scales(points), true))
    else Ok((top, false))
  }

  /** A point becomes a field of its own (`_emitted`). */
  predicate Emitted(raw: RawPoint, referenced: set<string>) {
    raw.kind != Pad && !(raw.kind == ScaleFactor && raw.name in referenced)
  }

  /** Points of integer and accumulator types can be scaled. */
  predicate Scalable(kind: Kind) {
    || kind.Int16? || kind.Uint16? || kind.Int32? || kind.Uint32? || kind.Int64? || kind.Uint64?
    || kind.Acc16? || kind.Acc32? || kind.Acc64?
  }

  /** The registers a point's field reads: its type says how many, and only for a string does the definition. */
  function WidthOf(raw: RawPoint): nat {
    match raw.kind
    case Int32 | Uint32 | Acc32 | Enum32 | Bitfield32 | Float32 | IpAddr => 2
    case Int64 | Uint64 | Acc64 | Bitfield64 | Float64 => 4
    case Eui48 => 3
    case Ipv6Addr => 8
    case Text => raw.size
    case _ => 1
  }

  // ----- what the names of the types say -----

  /** The type as definitions spell it. */
  function TypeName(kind: Kind): string {
    match kind
    case Int16 => "int16" case Int32 => "int32" case Int64 => "int64"
    case Uint16 => "uint16" case Uint32 => "uint32" case Uint64 => "uint64"
    case Acc16 => "acc16" case Acc32 => "acc32" case Acc64 => "acc64"
    case Enum16 => "enum16" case Enum32 => "enum32"
    case Bitfield16 => "bitfield16" case Bitfield32 => "bitfield32" case Bitfield64 => "bitfield64"
    case Float32 => "float32" case Float64 => "float64"
    case Text => "string" case CountPoint => "count" case ScaleFactor => "sunssf" case Pad => "pad"
    case IpAddr => "ipaddr" case Ipv6Addr => "ipv6addr" case Eui48 => "eui48"
    case Unsupported(type_) => type_
  }

  predicate EndsIn(name: string, suffix: string) {
    |suffix| <= |name| && name[|name| - |suffix|..] == suffix
  }

  predicate StartsWith(name: string, prefix: string) {
    |prefix| <= |name| && name[..|prefix|] == prefix
  }

  lemma LastTwo(name: string, a: char, b: char)
    ensures EndsIn(name, [a, b]) <==> |name| >= 2 && name[|name| - 2] == a && name[|name| - 1] == b
  {
    if |name| >= 2 { assert name[|name| - 2..] == [name[|name| - 2], name[|name| - 1]]; }
  }

  lemma FirstThree(name: string, a: char, b: char, c: char)
    ensures StartsWith(name, [a, b, c]) <==> |name| >= 3 && name[0] == a && name[1] == b && name[2] == c
  {
    if |name| >= 3 { assert name[..3] == [name[0], name[1], name[2]]; }
  }

  /** The bits a type's name promises; a count, a scale factor and a pad are a word each. */
  function Bits(name: string): nat {
    if name == "ipaddr" then 32
    else if name == "ipv6addr" then 128
    else if EndsIn(name, "32") then 32
    else if EndsIn(name, "48") then 48
    else if EndsIn(name, "64") then 64
    else 16
  }

  /** A field is as wide as its type's name promises, whatever size the definition gives; a string is as the definition says. */
  lemma WidthsAreNamed(raw: RawPoint)
    requires !raw.kind.Unsupported?
    ensures if raw.kind == Text then WidthOf(raw) == raw.size else 16 * WidthOf(raw) == Bits(TypeName(raw.kind))
  {
    hide EndsIn;
    LastTwo(TypeName(raw.kind), '3', '2');
    LastTwo(TypeName(raw.kind), '4', '8');
    LastTwo(TypeName(raw.kind), '6', '4');
  }

  /** Integers and accumulators are what a factor scales. */
  lemma ScaledTypesAreNamed(kind: Kind)
    requires !kind.Unsupported?
    ensures Scalable(kind) <==>
            StartsWith(TypeName(kind), "int") || StartsWith(TypeName(kind), "uin") || StartsWith(TypeName(kind), "acc")
  {
    hide StartsWith;
    FirstThree(TypeName(kind), 'i', 'n', 't');
    FirstThree(TypeName(kind), 'u', 'i', 'n');
    FirstThree(TypeName(kind), 'a', 'c', 'c');
  }

  /** One point's field (`_emit_point`). */
  function EmitPoint(point: Point, scales: map<string, int>): Result<Field, GenerationError> {
    var raw := point.raw;
    if raw.kind.Unsupported? then Err(GenerationError)
    else if Scalable(raw.kind) && raw.scale.ByPoint? then
      if raw.scale.name in scales then Ok(Field(raw.name, point.address, WidthOf(raw), Some(scales[raw.scale.name])))
      else Err(GenerationError)
    else Ok(Field(raw.name, point.address, WidthOf(raw), None))
  }

  /** Fields of the first `n` points; the header's are left to the base class. */
  function EmitFields(points: seq<Point>, n: nat, referenced: set<string>, scales: map<string, int>, top: bool)
    : Result<seq<Field>, GenerationError>
    requires n <= |points|
    decreases n
  {
    if n == 0 then Ok([])
    else
      var rest := EmitFields(points, n - 1, referenced, scales, top);
      if rest.Err? || !Emitted(points[n - 1].raw, referenced) || (top && Header(points[n - 1])) then rest
      else
        var last := EmitPoint(points[n - 1], scales);
        if last.Ok? then Ok(rest.value + [last.value]) else Err(GenerationError)
  }

  /** The repeats of the first `n` nested blocks; `scopes` ends with the block they are in. */
  function EmitChildren(g: Group, n: nat, top: map<string, int>, scopes: seq<Group>, referenced: set<string>)
    : Result<seq<Repeat>, GenerationError>
    requires n <= |g.children| && scopes != []
    decreases g, n
  {
    if n == 0 then Ok([])
    else
      var child := g.children[n - 1];
      var rest, component, wiring :=
        EmitChildren(g, n - 1, top, scopes, referenced), EmitGroup(child, top, scopes, referenced), Wire(child, scopes);
      if rest.Ok? && component.Ok? && wiring.Ok? then Ok(rest.value + [Repeat(wiring.value, component.value, child.aliases)])
      else Err(GenerationError)
  }

  /** One block's class (`_emit_group_class`). */
  function EmitGroup(g: Group, top: map<string, int>, scopes: seq<Group>, referenced: set<string>): Result<Class, GenerationError>
    requires scopes != []
    decreases g, |g.children| + 1
  {
    var groups := EmitChildren(g, |g.children|, top, scopes + [g], referenced);
    var scales := BlockScales(g.points, top, scopes);
    if groups.Err? || scales.Err? then Err(GenerationError)
    else
      var fields := EmitFields(g.points, |g.points|, referenced, scales.value.0, false);
      if fields.Err? then Err(GenerationError) else Ok(Class(fields.value, scales.value.1, groups.value))
  }

  /** Names a block or its nested blocks are repeated by (`_count_names`). */
  function CountNames(raw: RawGroup): set<string>
    decreases raw, |raw.groups| + 1
  {
    (if raw.count.Named? then {raw.count.point} else {}) + CountNamesBelow(raw, |raw.groups|)
  }

  function CountNamesBelow(raw: RawGroup, k: nat): set<string>
    requires k <= |raw.groups|
    decreases raw, k
  {
    if k == 0 then {} else CountNamesBelow(raw, k - 1) + CountNames(raw.groups[k - 1])
  }

  /** A whole model (`_generate_model`). */
  function EmitModel(raw: RawGroup, counts: map<string, int>): Result<Class, GenerationError> {
    var parsed := ParseGroup(raw, 0, counts);
    if !(counts.Keys <= CountNames(raw)) || parsed.Err? then Err(GenerationError)
    else
      var top := parsed.value;
      var scales, referenced := Scales(top.points), Referenced(top);
      var groups, fields :=
        EmitChildren(top, |top.children|, scales, [top], referenced),
        EmitFields(top.points, |top.points|, referenced, scales, true);
      if groups.Err? || fields.Err? then Err(GenerationError) else Ok(Class(fields.value, false, groups.value))
  }

  // ----- what the classes do at run time -----

  /** The device's registers; a count register of 0xFFFF is unimplemented. */
  type Device = int -> nat

  /** Where a component sits: its model's address, and its own shift within the model. */
  datatype Place = Place(base: int, shift: int)

  /** Where a field is read (`_address`). */
  function Address(f: Field, at: Place): int {
    f.address + at.base + at.shift
  }

  /** Where its scale register is read (`_scale_address`). */
  function ScaleAddress(f: Field, inBlock: bool, at: Place): int
    requires f.scale.Some?
  {
    f.scale.value + at.base + if inBlock then at.shift else 0
  }

  /** Where a count register is read (`_count_items`). */
  function CountAddress(count: CountRef, at: Place): int
    requires count.Register?
  {
    count.address + at.base + at.shift - if count.inBlock then 0 else at.shift
  }

  /** A count register read as uint16 with 0xFFFF for unimplemented, which counts as none. */
  function CountRead(device: Device, address: int): nat {
    if device(address) == 0xFFFF then 0 else device(address)
  }

  /** The count a model-length group is bound to (`_ModelLengthGroup.bind`). */
  function Bind(start: int, stride: int, span: int): Option<nat>
    requires stride > 0
  {
    if (span - start) / stride >= 0 && (span - start) % stride == 0 then Some((span - start) / stride) else None
  }

  /** How many instances a block has, in a component placed at `at`. */
  function CountAt(wiring: Wiring, at: Place, device: Device, span: int): nat {
    match wiring
    case Unwired => 0
    case ToModelEnd(start, stride) => if stride > 0 && Bind(start, stride, span).Some? then Bind(start, stride, span).value else 0
    case Repeating(Literal(n), _) => if n > 0 then n else 0
    case Repeating(Register(_, _), _) => CountRead(device, CountAddress(wiring.count, at))
  }

  function TermsAt(terms: seq<Term>, n: nat, base: int, device: Device): int
    requires n <= |terms|
  {
    if n == 0 then 0 else TermsAt(terms, n - 1, base, device) + terms[n - 1].registers * device(base + terms[n - 1].address)
  }

  /** A stride, with the counts read from the model's own fields. */
  function StrideAt(wiring: Wiring, base: int, device: Device): int
    requires !wiring.Unwired?
  {
    match wiring
    case ToModelEnd(_, stride) => stride
    case Repeating(_, Stride(size, terms)) => size + TermsAt(terms, |terms|, base, device)
  }

  /** The path names an instance of the built tree. */
  ghost predicate Exists(c: Class, path: seq<Step>, at: Place, device: Device, span: int)
    decreases |path|
  {
    path == [] ||
    (&& path[0].group < |c.groups|
     && !c.groups[path[0].group].wiring.Unwired?
     && path[0].instance < CountAt(c.groups[path[0].group].wiring, at, device, span)
     && Exists(c.groups[path[0].group].component, path[1..],
               at.(shift := at.shift + path[0].instance * StrideAt(c.groups[path[0].group].wiring, at.base, device)), device, span))
  }

  function ClassAt(c: Class, path: seq<Step>): Class
    decreases |path|
  {
    if path == [] then c
    else if path[0].group < |c.groups| then ClassAt(c.groups[path[0].group].component, path[1..])
    else c
  }

  /** Where an instance of the built tree is placed (`_build_instances`). */
  function PlaceOf(c: Class, path: seq<Step>, at: Place, device: Device, span: int): Place
    requires Exists(c, path, at, device, span)
    decreases |path|
  {
    if path == [] then at
    else
      var group := c.groups[path[0].group];
      PlaceOf(group.component, path[1..], at.(shift := at.shift + path[0].instance * StrideAt(group.wiring, at.base, device)),
              device, span)
  }
}
