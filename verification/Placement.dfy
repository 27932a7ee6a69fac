/**
 Why the placed tree means the sequential layout: sizes, strides and
 instance-0 addresses of `Layout.ParseGroup` against what a definition denotes.
 */
module Placement {
  import opened Wrappers
  import opened Layout

  // ----- linear terms -----

  /** The registers the first `n` terms stand for. */
  function Dot(terms: Terms, n: nat, v: Valuation): int
    requires n <= |terms|
  {
    if n == 0 then 0 else Dot(terms, n - 1, v) + terms[n - 1].1 * v(terms[n - 1].0)
  }

  function Total(terms: Terms, v: Valuation): int {
    Dot(terms, |terms|, v)
  }

  lemma {:induction false} DotTail(terms: Terms, n: nat, v: Valuation)
    requires 0 < n <= |terms|
    ensures Dot(terms, n, v) == terms[0].1 * v(terms[0].0) + Dot(terms[1..], n - 1, v)
  {
    if n > 1 { DotTail(terms, n - 1, v); }
  }

  lemma TotalCons(name: string, r: int, rest: Terms, v: Valuation)
    ensures Total([(name, r)] + rest, v) == r * v(name) + Total(rest, v)
  {
    var t := [(name, r)] + rest;
    DotTail(t, |t|, v);
    assert t[1..] == rest;
  }

  lemma {:induction false} AddTermAdds(terms: Terms, name: string, registers: int, v: Valuation)
    ensures Total(AddTerm(terms, name, registers), v) == Total(terms, v) + registers * v(name)
    ensures AddTerm(terms, name, registers) != []
  {
    if terms == [] {
      assert [(name, registers)] + [] == [(name, registers)];
      TotalCons(name, registers, [], v);
    } else {
      var head := terms[0];
      assert terms == [(head.0, head.1)] + terms[1..];
      TotalCons(head.0, head.1, terms[1..], v);
      if head.0 == name {
        TotalCons(name, head.1 + registers, terms[1..], v);
        Distribute(head.1, registers, v(name));
      } else {
        AddTermAdds(terms[1..], name, registers, v);
        TotalCons(head.0, head.1, AddTerm(terms[1..], name, registers), v);
      }
    }
  }

  lemma Distribute(a: int, b: int, c: int)
    ensures (a + b) * c == a * c + b * c
  {
  }

  lemma {:induction false} AddTermsAdd(terms: Terms, more: Terms, count: int, n: nat, v: Valuation)
    requires n <= |more|
    ensures Total(AddTerms(terms, more, count, n), v) == Total(terms, v) + count * Dot(more, n, v)
    ensures n > 0 ==> AddTerms(terms, more, count, n) != []
  {
    if n > 0 {
      AddTermsAdd(terms, more, count, n - 1, v);
      AddTermAdds(AddTerms(terms, more, count, n - 1), more[n - 1].0, count * more[n - 1].1, v);
      Associate(count, more[n - 1].1, v(more[n - 1].0), Dot(more, n - 1, v));
    }
  }

  lemma Associate(a: int, b: int, c: int, d: int)
    ensures a * (d + b * c) == a * d + (a * b) * c
  {
    assert a * (b * c) == (a * b) * c;
  }

  // ----- same-shaped blocks have the same layout -----

  lemma ShapeOf(a: RawGroup)
    ensures Shape(a).count == a.count && Shape(a).points == a.points && |Shape(a).groups| == |a.groups|
    ensures forall i {:trigger Shape(a).groups[i]} :: 0 <= i < |a.groups| ==> Shape(a).groups[i] == Shape(a.groups[i])
  {
  }

  lemma ShapeParts(a: RawGroup, b: RawGroup)
    requires Shape(a) == Shape(b)
    ensures a.count == b.count && a.points == b.points && |a.groups| == |b.groups|
    ensures forall i {:trigger a.groups[i]} {:trigger b.groups[i]} :: 0 <= i < |a.groups| ==> Shape(a.groups[i]) == Shape(b.groups[i])
  {
    hide Shape;
    ShapeOf(a);
    ShapeOf(b);
    forall i | 0 <= i < |a.groups| ensures Shape(a.groups[i]) == Shape(b.groups[i]) {
      assert Shape(a).groups[i] == Shape(b).groups[i];
    }
  }

  lemma {:induction false} SameRegisters(a: RawGroup, b: RawGroup, v: Valuation, fill: nat)
    requires Shape(a) == Shape(b)
    ensures Registers(a, v, fill) == Registers(b, v, fill)
    decreases a, |a.groups| + 1
  {
    hide Shape, PointsSize;
    ShapeParts(a, b);
    SameSubs(a, b, |a.groups|, v, fill);
  }

  lemma {:induction false} SameSubs(a: RawGroup, b: RawGroup, k: nat, v: Valuation, fill: nat)
    requires Shape(a) == Shape(b) && k <= |a.groups| && |a.groups| == |b.groups|
    ensures SubsSize(a, k, v, fill) == SubsSize(b, k, v, fill)
    decreases a, k
  {
    hide Shape, Registers;
    if k > 0 {
      ShapeParts(a, b);
      ShapeParts(a.groups[k - 1], b.groups[k - 1]);
      SameSubs(a, b, k - 1, v, fill);
      SameRegisters(a.groups[k - 1], b.groups[k - 1], v, fill);
    }
  }

  lemma {:induction false} SameOffset(a: RawGroup, b: RawGroup, path: seq<Step>, v: Valuation, fill: nat)
    requires Shape(a) == Shape(b) && ValidPath(a, path, v, fill)
    ensures ValidPath(b, path, v, fill)
    ensures OffsetOf(a, path, v, fill) == OffsetOf(b, path, v, fill)
    ensures Shape(GroupAt(a, path)) == Shape(GroupAt(b, path))
    decreases |path|
  {
    hide Shape, Registers, SubsSize, PointsSize;
    ShapeParts(a, b);
    if path != [] {
      var k := path[0].group;
      ShapeParts(a.groups[k], b.groups[k]);
      SameOffset(a.groups[k], b.groups[k], path[1..], v, fill);
      SameSubs(a, b, k, v, fill);
      SameRegisters(a.groups[k], b.groups[k], v, fill);
    }
  }

  /** The groups from `k` to before `n` have the shape of the one at `k`. */
  ghost predicate ShapedAlike(groups: seq<RawGroup>, k: nat, n: nat)
    requires k < |groups| && n <= |groups|
  {
    forall i {:trigger groups[i]} :: k <= i < n ==> Shape(groups[i]) == Shape(groups[k])
  }

  lemma {:induction false} SameShapedAre(groups: seq<RawGroup>, k: nat, n: nat)
    requires k < |groups| && 0 < n <= |groups| - k && ShapedAlike(groups, k, k + n)
    ensures ShapedAlike(groups, k, k + SameShaped(groups, k, n))
    decreases |groups| - k - n
  {
    hide Shape;
    if k + n < |groups| && Shape(groups[k + n]) == Shape(groups[k]) {
      SameShapedAre(groups, k, n + 1);
    }
  }

  /** Siblings of one shape occupy a multiple of what the first does. */
  lemma {:induction false} SiblingsSize(raw: RawGroup, k: nat, m: nat, v: Valuation, fill: nat)
    requires k < |raw.groups| && k + m <= |raw.groups| && ShapedAlike(raw.groups, k, k + m)
    ensures SubsSize(raw, k + m, v, fill) ==
            SubsSize(raw, k, v, fill) + m * (Instances(raw.groups[k].count, v, fill) * Registers(raw.groups[k], v, fill))
  {
    hide Shape, Registers, Instances;
    if m > 0 {
      SiblingsSize(raw, k, m - 1, v, fill);
      var last := raw.groups[k + m - 1];
      ShapeParts(last, raw.groups[k]);
      SameRegisters(last, raw.groups[k], v, fill);
      var one := Instances(raw.groups[k].count, v, fill) * Registers(raw.groups[k], v, fill);
      Distribute(m - 1, 1, one);
    }
  }

  // ----- parsing keeps sizes right -----

  /** The device holds the values the overrides promise; an override is at least 1. */
  ghost predicate Consistent(v: Valuation, counts: map<string, int>) {
    forall name :: name in counts ==> counts[name] >= 1 && v(name) == counts[name]
  }

  /** How many sibling definitions a parsed group stands for. */
  function Multiplicity(g: Group): nat {
    if g.aliases == [] then 1 else |g.aliases|
  }

  /** Which definition the `c`-th parsed group stands for first. */
  function FirstOf(children: seq<Group>, c: nat): nat
    requires c <= |children|
  {
    if c == 0 then 0 else FirstOf(children, c - 1) + Multiplicity(children[c - 1])
  }

  /** Where the `k`-th nested group starts. */
  function SubStart(raw: RawGroup, k: nat, start: int, v: Valuation, fill: nat): int
    requires k <= |raw.groups|
  {
    start + PointsSize(raw.points, |raw.points|) + SubsSize(raw, k, v, fill)
  }

  /** The child was parsed from the definitions from `f` on, at the address where they start. */
  ghost predicate ChildOf(raw: RawGroup, f: nat, child: Group, start: int, counts: map<string, int>, v: Valuation, fill: nat) {
    && f < |raw.groups|
    && ParseGroup(raw.groups[f], SubStart(raw, f, start, v, fill), counts).Ok?
    && child == Region(raw.groups, f, ParseGroup(raw.groups[f], SubStart(raw, f, start, v, fill), counts).value)
  }

  ghost predicate SizeTracks(raw: RawGroup, k: nat, st: Parsing, start: int, v: Valuation, fill: nat)
    requires k <= |raw.groups|
  {
    && (st.size.Some? ==> start + st.size.value + Total(st.terms, v) == SubStart(raw, k, start, v, fill))
    && (st.size.Some? && st.terms == [] ==> st.offset == SubStart(raw, k, start, v, fill))
  }

  ghost predicate ChildrenTrack(raw: RawGroup, k: nat, children: seq<Group>, start: int, counts: map<string, int>,
                                v: Valuation, fill: nat)
  {
    && FirstOf(children, |children|) == k
    && forall c :: 0 <= c < |children| ==> ChildOf(raw, FirstOf(children, c), children[c], start, counts, v, fill)
  }

  lemma {:induction false} FirstOfPrefix(children: seq<Group>, more: Group, c: nat)
    requires c <= |children|
    ensures FirstOf(children + [more], c) == FirstOf(children, c)
  {
    if c > 0 { FirstOfPrefix(children, more, c - 1); }
  }

  lemma RegionStandsFor(raw: RawGroup, k: nat, child: Group)
    requires k < |raw.groups| && child.aliases == []
    ensures Multiplicity(Region(raw.groups, k, child)) == Collapsed(raw.groups, k, child)
  {
    hide SameShaped;
  }

  lemma CollapsedAreSameShaped(groups: seq<RawGroup>, k: nat, child: Group)
    requires k < |groups|
    ensures ShapedAlike(groups, k, k + Collapsed(groups, k, child))
  {
    hide Shape, SameShaped;
    SameShapedAre(groups, k, 1);
  }

  lemma AddChild(raw: RawGroup, k: nat, children: seq<Group>, child: Group, start: int, counts: map<string, int>,
                 v: Valuation, fill: nat)
    requires ChildrenTrack(raw, k, children, start, counts, v, fill)
    requires ChildOf(raw, k, child, start, counts, v, fill)
    ensures ChildrenTrack(raw, k + Multiplicity(child), children + [child], start, counts, v, fill)
  {
    hide ChildOf, Multiplicity;
    var now := children + [child];
    FirstOfPrefix(children, child, |children|);
    forall c | 0 <= c < |now| ensures ChildOf(raw, FirstOf(now, c), now[c], start, counts, v, fill) {
      FirstOfPrefix(children, child, c);
    }
  }

  /** What a parsed group's size and terms add up to. */
  ghost predicate SizedRight(g: Group, raw: RawGroup, v: Valuation, fill: nat) {
    g.size.Some? ==> g.size.value + Total(g.terms, v) == Registers(raw, v, fill)
  }

  /** A group's own count, overridden or not, is how many instances it has. */
  lemma CountHolds(count: Count, counts: map<string, int>, v: Valuation, fill: nat)
    requires Consistent(v, counts)
    ensures Instances(Overridden(count, counts), v, fill) == Instances(count, v, fill)
  {
  }

  /** One turn of the loop keeps the size right. */
  lemma AdvanceTracks(raw: RawGroup, k: nat, st: Parsing, parsed: Group, start: int, counts: map<string, int>,
                      v: Valuation, fill: nat)
    requires k < |raw.groups| && SizeTracks(raw, k, st, start, v, fill) && Consistent(v, counts)
    requires st.size.Some? && st.terms == []
    requires parsed.count == Overridden(raw.groups[k].count, counts) && SizedRight(parsed, raw.groups[k], v, fill)
    ensures SizeTracks(raw, k + Collapsed(raw.groups, k, parsed), Advance(st, Region(raw.groups, k, parsed), start), start, v, fill)
  {
    hide Shape, SameShaped, Registers, AddTerm, AddTerms, PointsSize, Total;
    var sub, m := raw.groups[k], Collapsed(raw.groups, k, parsed);
    CollapsedAreSameShaped(raw.groups, k, parsed);
    SiblingsSize(raw, k, m, v, fill);
    CountHolds(sub.count, counts, v, fill);
    TotalNone(v);
    if parsed.size.Some? {
      var s, t := parsed.size.value, Total(parsed.terms, v);
      if FixedCount(parsed.count).Some? {
        var n := parsed.count.n;
        AddTermsAdd([], parsed.terms, n * m, |parsed.terms|, v);
        TotalIs(parsed.terms, v);
        if parsed.terms == [] { NoTerms(n * m); }
        SplitProduct(n, m, s, t);
      } else if parsed.count.Named? && parsed.terms == [] {
        AddTermAdds([], parsed.count.point, s, v);
        assert v(parsed.count.point) * s == s * v(parsed.count.point);
      }
    }
  }

  lemma TotalNone(v: Valuation)
    ensures Total([], v) == 0
  {
  }

  lemma TotalIs(terms: Terms, v: Valuation)
    ensures Total(terms, v) == Dot(terms, |terms|, v)
  {
  }

  lemma NoTerms(count: int)
    ensures AddTerms([], [], count, 0) == []
  {
  }

  lemma SplitProduct(n: int, m: int, s: int, t: int)
    ensures (n * m) * s + (n * m) * t == m * (n * (s + t))
    ensures 1 * (n * (s + t)) == n * (s + t)
  {
    assert n * (s + t) == n * s + n * t;
    assert m * (n * s) == (n * m) * s && m * (n * t) == (n * m) * t;
  }

  lemma {:induction false} SubsTrack(raw: RawGroup, k: nat, st: Parsing, start: int, counts: map<string, int>,
                                     v: Valuation, fill: nat)
    requires k <= |raw.groups| && Consistent(v, counts)
    requires SizeTracks(raw, k, st, start, v, fill) && ChildrenTrack(raw, k, st.children, start, counts, v, fill)
    requires ParseSubs(raw, k, st, start, counts).Ok?
    ensures var end := ParseSubs(raw, k, st, start, counts).value;
      && SizeTracks(raw, |raw.groups|, end, start, v, fill)
      && ChildrenTrack(raw, |raw.groups|, end.children, start, counts, v, fill)
    decreases raw, |raw.groups| - k
  {
    hide SizeTracks, ChildrenTrack, ChildOf, Region, Collapsed, Advance, SizedRight, ParseGroup;
    if k < |raw.groups| {
      var parsed := ParseGroup(raw.groups[k], st.offset, counts).value;
      StartsWhereItShould(raw, k, st, start, counts, v, fill);
      SizesAreRight(raw.groups[k], st.offset, counts, parsed, v, fill);
      AdvanceTracks(raw, k, st, parsed, start, counts, v, fill);
      AdvanceAddsChild(st, Region(raw.groups, k, parsed), start);
      RegionStandsFor(raw, k, parsed);
      AddChild(raw, k, st.children, Region(raw.groups, k, parsed), start, counts, v, fill);
      SubsTrack(raw, k + Collapsed(raw.groups, k, parsed), Advance(st, Region(raw.groups, k, parsed), start), start, counts, v, fill);
    }
  }

  lemma AdvanceAddsChild(st: Parsing, child: Group, start: int)
    ensures Advance(st, child, start).children == st.children + [child]
  {
  }

  /** Whatever comes next is parsed at the address where it starts, or not at all. */
  lemma StartsWhereItShould(raw: RawGroup, k: nat, st: Parsing, start: int, counts: map<string, int>, v: Valuation, fill: nat)
    requires k < |raw.groups| && SizeTracks(raw, k, st, start, v, fill)
    requires st.size.Some? && st.terms == [] && ParseGroup(raw.groups[k], st.offset, counts).Ok?
    ensures ChildOf(raw, k, Region(raw.groups, k, ParseGroup(raw.groups[k], st.offset, counts).value), start, counts, v, fill)
  {
    hide ParseGroup, Region, SubsSize, PointsSize;
  }

  /**
   Symbolic sizes are right: a parsed group's fixed size plus its registers per
   count point, at the values those points hold, is what one instance occupies.
   */
  lemma {:induction false} SizesAreRight(raw: RawGroup, start: int, counts: map<string, int>, g: Group, v: Valuation, fill: nat)
    requires Consistent(v, counts) && ParseGroup(raw, start, counts) == Ok(g)
    ensures SizedRight(g, raw, v, fill)
    ensures g.count == Overridden(raw.count, counts) && g.aliases == [] && g.start == start
    ensures g.points == ParsePoints(raw.points, start)
    ensures ChildrenTrack(raw, |raw.groups|, g.children, start, counts, v, fill)
    decreases raw, |raw.groups| + 1
  {
    hide ChildrenTrack, PointsSize, ParsePoints, ParseSubs, Total, Overridden;
    var st := StartParsing(raw, start);
    TotalNone(v);
    NoChildren(raw, start, counts, v, fill);
    assert SubsSize(raw, 0, v, fill) == 0;
    SubsTrack(raw, 0, st, start, counts, v, fill);
  }

  lemma NoChildren(raw: RawGroup, start: int, counts: map<string, int>, v: Valuation, fill: nat)
    ensures ChildrenTrack(raw, 0, [], start, counts, v, fill)
  {
  }

  // ----- where the children of a parsed group come from -----

  /** The child was parsed from the definitions from `f` on, wherever they start. */
  ghost predicate Stems(raw: RawGroup, counts: map<string, int>, f: nat, child: Group) {
    f < |raw.groups| && exists at {:trigger ParseGroup(raw.groups[f], at, counts)} ::
      ParseGroup(raw.groups[f], at, counts).Ok? && child == Region(raw.groups, f, ParseGroup(raw.groups[f], at, counts).value)
  }

  ghost predicate ChildrenStem(raw: RawGroup, counts: map<string, int>, k: nat, children: seq<Group>) {
    && FirstOf(children, |children|) == k
    && forall c :: 0 <= c < |children| ==> Stems(raw, counts, FirstOf(children, c), children[c])
  }

  lemma AddStem(raw: RawGroup, counts: map<string, int>, k: nat, children: seq<Group>, child: Group)
    requires ChildrenStem(raw, counts, k, children) && Stems(raw, counts, k, child)
    ensures ChildrenStem(raw, counts, k + Multiplicity(child), children + [child])
  {
    hide Stems, Multiplicity;
    var now := children + [child];
    FirstOfPrefix(children, child, |children|);
    forall c | 0 <= c < |now| ensures Stems(raw, counts, FirstOf(now, c), now[c]) {
      FirstOfPrefix(children, child, c);
    }
  }

  lemma ParsedBare(raw: RawGroup, start: int, counts: map<string, int>)
    requires ParseGroup(raw, start, counts).Ok?
    ensures var g := ParseGroup(raw, start, counts).value;
      g.aliases == [] && g.start == start && g.points == ParsePoints(raw.points, start) && g.count == Overridden(raw.count, counts)
  {
    hide ParsePoints, ParseSubs;
  }

  lemma {:induction false} SubsStem(raw: RawGroup, k: nat, st: Parsing, start: int, counts: map<string, int>)
    requires k <= |raw.groups| && ChildrenStem(raw, counts, k, st.children) && ParseSubs(raw, k, st, start, counts).Ok?
    ensures ChildrenStem(raw, counts, |raw.groups|, ParseSubs(raw, k, st, start, counts).value.children)
    decreases |raw.groups| - k
  {
    hide ChildrenStem, Region, Collapsed, Advance, ParseGroup;
    if k < |raw.groups| {
      var parsed := ParseGroup(raw.groups[k], st.offset, counts).value;
      var child := Region(raw.groups, k, parsed);
      ParsedBare(raw.groups[k], st.offset, counts);
      RegionStandsFor(raw, k, parsed);
      AdvanceAddsChild(st, child, start);
      assert Stems(raw, counts, k, child);
      AddStem(raw, counts, k, st.children, child);
      SubsStem(raw, k + Collapsed(raw.groups, k, parsed), Advance(st, child, start), start, counts);
    }
  }

  lemma ChildrenParsed(raw: RawGroup, start: int, counts: map<string, int>, g: Group)
    requires ParseGroup(raw, start, counts) == Ok(g)
    ensures ChildrenStem(raw, counts, |raw.groups|, g.children)
  {
    hide Stems, ParseSubs;
    assert ChildrenStem(raw, counts, 0, []);
    SubsStem(raw, 0, StartParsing(raw, start), start, counts);
  }

  /** The definition a child was parsed from, and where. */
  lemma StandsAt(raw: RawGroup, counts: map<string, int>, children: seq<Group>, c: nat) returns (f: nat, at: int)
    requires ChildrenStem(raw, counts, |raw.groups|, children) && c < |children|
    ensures f == FirstOf(children, c) < |raw.groups| && ParseGroup(raw.groups[f], at, counts).Ok?
    ensures children[c] == Region(raw.groups, f, ParseGroup(raw.groups[f], at, counts).value)
    ensures ParseGroup(raw.groups[f], at, counts).value.aliases == []
  {
    hide ParseGroup, Region;
    f := FirstOf(children, c);
    assert Stems(raw, counts, f, children[c]);
    at :| ParseGroup(raw.groups[f], at, counts).Ok? && children[c] == Region(raw.groups, f, ParseGroup(raw.groups[f], at, counts).value);
    ParsedBare(raw.groups[f], at, counts);
  }

  /** The child that stands for a definition. */
  lemma StoodFor(raw: RawGroup, counts: map<string, int>, children: seq<Group>, k: nat) returns (c: nat, a: nat)
    requires ChildrenStem(raw, counts, |raw.groups|, children) && k < |raw.groups|
    ensures c < |children| && a < Multiplicity(children[c]) && FirstOf(children, c) + a == k && (c, a) == ChildFor(children, 0, k)
    ensures FirstOf(children, c) < |raw.groups| && Shape(raw.groups[k]) == Shape(raw.groups[FirstOf(children, c)])
    ensures a == 0 || FixedCount(Overridden(raw.groups[FirstOf(children, c)].count, counts)).Some?
  {
    hide ParseGroup, Region, Shape, Multiplicity, ShapedAlike, FirstOf, ChildFor, Stems;
    FirstOfNone(children);
    assert FirstOf(children, |children|) == |raw.groups|;
    hide ChildrenStem;
    ChildForFinds(children, 0, k);
    c, a := ChildFor(children, 0, k).0, ChildFor(children, 0, k).1;
    var f, at := StandsAt(raw, counts, children, c);
    ChildIsRegion(raw, f, children[c], ParseGroup(raw.groups[f], at, counts).value, a);
    ParsedBare(raw.groups[f], at, counts);
  }

  // ----- the placed tree -----

  /** Registers between neighbouring instances, once the count points are known. */
  function StrideOf(child: Group, v: Valuation): int
    requires child.size.Some?
  {
    child.size.value + Total(child.terms, v)
  }

  /** Where instances of the placed tree live: their first step names a child of the tree. */
  ghost predicate TreePath(g: Group, path: seq<Step>, v: Valuation, fill: nat)
    decreases |path|
  {
    path == [] ||
    (&& path[0].group < |g.children|
     && g.children[path[0].group].size.Some?
     && path[0].instance < Instances(g.children[path[0].group].count, v, fill)
     && TreePath(g.children[path[0].group], path[1..], v, fill))
  }

  function NodeAt(g: Group, path: seq<Step>): Group
    decreases |path|
  {
    if path == [] then g
    else if path[0].group < |g.children| then NodeAt(g.children[path[0].group], path[1..])
    else g
  }

  /** The instance offset of a node: each enclosing index times its stride. */
  function InstanceOffset(g: Group, path: seq<Step>, v: Valuation, fill: nat): int
    requires TreePath(g, path, v, fill)
    decreases |path|
  {
    if path == [] then 0
    else
      var child := g.children[path[0].group];
      path[0].instance * StrideOf(child, v) + InstanceOffset(child, path[1..], v, fill)
  }

  /** The child that stands for definition `k`, counted from child `c`, and its place among the siblings collapsed there. */
  function ChildFor(children: seq<Group>, c: nat, k: nat): (nat, nat)
    requires c <= |children|
    decreases |children| - c
  {
    if c == |children| || k < Multiplicity(children[c]) then (c, k)
    else ChildFor(children, c + 1, k - Multiplicity(children[c]))
  }

  lemma {:induction false} ChildForFinds(children: seq<Group>, c: nat, k: nat)
    requires c <= |children| && FirstOf(children, c) + k < FirstOf(children, |children|)
    ensures var (d, a) := ChildFor(children, c, k);
      d < |children| && a < Multiplicity(children[d]) && FirstOf(children, d) + a == FirstOf(children, c) + k
    decreases |children| - c
  {
    hide Multiplicity;
    if c < |children| && k >= Multiplicity(children[c]) {
      ChildForFinds(children, c + 1, k - Multiplicity(children[c]));
    }
  }

  /** The path to the same instance in the placed tree. */
  function Translated(raw: RawGroup, g: Group, path: seq<Step>, v: Valuation, fill: nat): seq<Step>
    decreases |path|
  {
    if path == [] || path[0].group >= |raw.groups| then []
    else
      var sub := raw.groups[path[0].group];
      var (c, a) := ChildFor(g.children, 0, path[0].group);
      if c >= |g.children| then []
      else
        [Step(c, a * Instances(sub.count, v, fill) + path[0].instance)]
        + Translated(sub, g.children[c], path[1..], v, fill)
  }

  /** Every child on the way has a size a stride can be made from. */
  ghost predicate Strided(raw: RawGroup, g: Group, path: seq<Step>)
    decreases |path|
  {
    path == [] || path[0].group >= |raw.groups| ||
    var (c, a) := ChildFor(g.children, 0, path[0].group);
    c >= |g.children| || (g.children[c].size.Some? && Strided(raw.groups[path[0].group], g.children[c], path[1..]))
  }

  /** The placed node is where the definition puts the instance, with its points in sequence. */
  ghost predicate PlacedRight(raw: RawGroup, start: int, g: Group, path: seq<Step>, v: Valuation, fill: nat)
    requires ValidPath(raw, path, v, fill)
  {
    var there := Translated(raw, g, path, v, fill);
    && TreePath(g, there, v, fill)
    && NodeAt(g, there).points == ParsePoints(GroupAt(raw, path).points, NodeAt(g, there).start)
    && NodeAt(g, there).start + InstanceOffset(g, there, v, fill) == start + OffsetOf(raw, path, v, fill)
  }

  lemma {:induction false} InstancesArePlaced(raw: RawGroup, raw0: RawGroup, start: int, counts: map<string, int>,
                                              g: Group, g0: Group, path: seq<Step>, v: Valuation, fill: nat)
    requires Shape(raw) == Shape(raw0) && Consistent(v, counts)
    requires ParseGroup(raw0, start, counts) == Ok(g0)
    requires g.start == g0.start && g.points == g0.points && g.children == g0.children
    requires ValidPath(raw, path, v, fill) && Strided(raw, g, path)
    ensures PlacedRight(raw, start, g, path, v, fill)
    decreases |path|
  {
    hide Shape, ParseGroup, ParsePoints, PointsSize, SubsSize, Registers, Multiplicity, Region, Collapsed, ChildFor,
         SizedRight, Instances, Total, ChildrenTrack;
    ShapeParts(raw, raw0);
    SizesAreRight(raw0, start, counts, g0, v, fill);
    if path != [] {
      var k, i := path[0].group, path[0].instance;
      var (c, a) := ChildFor(g.children, 0, k);
      FindChild(raw0, g0.children, start, counts, v, fill, k);
      var f := FirstOf(g0.children, c);
      var child, sub, sub0 := g.children[c], raw.groups[k], raw0.groups[f];
      var at := SubStart(raw0, f, start, v, fill);
      var child0 := ParseGroup(sub0, at, counts).value;
      SizesAreRight(sub0, at, counts, child0, v, fill);
      ChildIsRegion(raw0, f, child, child0, a);
      assert Shape(sub) == Shape(sub0) by { ShapeParts(raw, raw0); }
      InstancesArePlaced(sub, sub0, at, counts, child, child0, path[1..], v, fill);
      StepIsPlaced(raw, raw0, start, counts, g, child0, path, c, a, v, fill);
    }
  }

  /** The child a definition belongs to, and the definition it was parsed from. */
  lemma FindChild(raw: RawGroup, children: seq<Group>, start: int, counts: map<string, int>, v: Valuation, fill: nat, k: nat)
    requires k < |raw.groups| && ChildrenTrack(raw, |raw.groups|, children, start, counts, v, fill)
    ensures var (c, a) := ChildFor(children, 0, k);
      && c < |children| && a < Multiplicity(children[c]) && FirstOf(children, c) + a == k
      && ChildOf(raw, FirstOf(children, c), children[c], start, counts, v, fill)
  {
    hide ChildOf, Multiplicity, ChildFor;
    assert FirstOf(children, 0) == 0;
    ChildForFinds(children, 0, k);
    var c := ChildFor(children, 0, k).0;
    assert ChildOf(raw, FirstOf(children, c), children[c], start, counts, v, fill);
  }

  /** What a region shares with the group it was parsed as, and how its siblings compare. */
  lemma ChildIsRegion(raw: RawGroup, f: nat, child: Group, child0: Group, a: nat)
    requires f < |raw.groups| && child == Region(raw.groups, f, child0) && child0.aliases == [] && a < Multiplicity(child)
    ensures child.start == child0.start && child.points == child0.points && child.children == child0.children
    ensures child.size == child0.size && child.terms == child0.terms
    ensures f + a < |raw.groups| && Shape(raw.groups[f + a]) == Shape(raw.groups[f])
    ensures ShapedAlike(raw.groups, f, f + a)
    ensures a == 0 || (child0.count.Fixed? && child0.count.n > 0)
    ensures child.count == if Multiplicity(child) > 1 then Fixed(child0.count.n * Multiplicity(child)) else child0.count
    ensures Multiplicity(child) > 1 ==> child0.count.Fixed? && child0.count.n > 0
  {
    hide Shape, SameShaped;
    RegionStandsFor(raw, f, child0);
    CollapsedAreSameShaped(raw.groups, f, child0);
    var m := Collapsed(raw.groups, f, child0);
    assert ShapedAlike(raw.groups, f, f + m);
    assert f <= f + a < f + m;
    assert raw.groups[f + a] == raw.groups[f + a];
  }

  /** One step down the placed tree. */
  lemma TreeStep(g: Group, c: nat, index: nat, rest: seq<Step>, v: Valuation, fill: nat)
    requires c < |g.children| && g.children[c].size.Some?
    requires index < Instances(g.children[c].count, v, fill) && TreePath(g.children[c], rest, v, fill)
    ensures var there := [Step(c, index)] + rest;
      && TreePath(g, there, v, fill)
      && NodeAt(g, there) == NodeAt(g.children[c], rest)
      && InstanceOffset(g, there, v, fill) == index * StrideOf(g.children[c], v) + InstanceOffset(g.children[c], rest, v, fill)
  {
    hide Instances, Total;
    var there := [Step(c, index)] + rest;
    assert there[1..] == rest;
  }

  /** One step down the definition. */
  lemma RawStep(raw: RawGroup, path: seq<Step>, start: int, v: Valuation, fill: nat)
    requires path != [] && ValidPath(raw, path, v, fill)
    ensures var sub := raw.groups[path[0].group];
      && GroupAt(raw, path) == GroupAt(sub, path[1..])
      && start + OffsetOf(raw, path, v, fill) ==
         SubStart(raw, path[0].group, start, v, fill) + path[0].instance * Registers(sub, v, fill) + OffsetOf(sub, path[1..], v, fill)
  {
    hide Registers, SubsSize, PointsSize, Instances;
  }

  lemma TranslatedStep(raw: RawGroup, g: Group, path: seq<Step>, c: nat, a: nat, v: Valuation, fill: nat)
    requires path != [] && path[0].group < |raw.groups|
    requires (c, a) == ChildFor(g.children, 0, path[0].group) && c < |g.children|
    ensures var sub := raw.groups[path[0].group];
      Translated(raw, g, path, v, fill) ==
      [Step(c, a * Instances(sub.count, v, fill) + path[0].instance)] + Translated(sub, g.children[c], path[1..], v, fill)
  {
    hide ChildFor, Instances;
  }

  /** Siblings of one shape start a stride times their instances apart. */
  lemma SiblingStarts(raw: RawGroup, raw0: RawGroup, f: nat, a: nat, start: int, v: Valuation, fill: nat)
    requires Shape(raw) == Shape(raw0) && f + a < |raw0.groups| && ShapedAlike(raw0.groups, f, f + a)
    requires Shape(raw0.groups[f + a]) == Shape(raw0.groups[f])
    ensures |raw.groups| == |raw0.groups|
    ensures var sub := raw.groups[f + a];
      && Shape(sub) == Shape(raw0.groups[f]) && sub.count == raw0.groups[f].count
      && Registers(sub, v, fill) == Registers(raw0.groups[f], v, fill)
      && SubStart(raw, f + a, start, v, fill) ==
         SubStart(raw0, f, start, v, fill) + a * (Instances(sub.count, v, fill) * Registers(sub, v, fill))
  {
    hide Shape, Registers, SubsSize, PointsSize, Instances;
    ShapeParts(raw, raw0);
    ShapeParts(raw.groups[f + a], raw0.groups[f]);
    SameRegisters(raw.groups[f + a], raw0.groups[f], v, fill);
    SameSubs(raw, raw0, f + a, v, fill);
    SiblingsSize(raw0, f, a, v, fill);
  }

  /** One step down: the collapsed index times the stride is what the earlier siblings and instances occupy. */
  lemma StepIsPlaced(raw: RawGroup, raw0: RawGroup, start: int, counts: map<string, int>, g: Group, child0: Group,
                     path: seq<Step>, c: nat, a: nat, v: Valuation, fill: nat)
    requires Shape(raw) == Shape(raw0) && Consistent(v, counts) && path != [] && ValidPath(raw, path, v, fill)
    requires (c, a) == ChildFor(g.children, 0, path[0].group) && c < |g.children| && a < Multiplicity(g.children[c])
    requires FirstOf(g.children, c) + a == path[0].group < |raw0.groups|
    requires var f, child := FirstOf(g.children, c), g.children[c];
      && child == Region(raw0.groups, f, child0) && child0.aliases == []
      && child0.count == Overridden(raw0.groups[f].count, counts)
      && child0.start == SubStart(raw0, f, start, v, fill)
      && SizedRight(child0, raw0.groups[f], v, fill) && child.size.Some?
    requires PlacedRight(raw.groups[path[0].group], child0.start, g.children[c], path[1..], v, fill)
    ensures PlacedRight(raw, start, g, path, v, fill)
  {
    hide Shape, ParsePoints, Region, ChildFor, Total, Registers, Multiplicity, SubStart, Instances, ShapedAlike,
         OffsetOf, InstanceOffset, TreePath, NodeAt, GroupAt, Translated, FirstOf, Overridden, Consistent, SizedRight, StrideOf, PlacedRight, ValidPath;
    FirstStep(raw, path, v, fill);
    var k, i, f := path[0].group, path[0].instance, FirstOf(g.children, c);
    var sub, sub0, child := raw.groups[k], raw0.groups[f], g.children[c];
    ChildIsRegion(raw0, f, child, child0, a);
    CountHolds(sub0.count, counts, v, fill);
    SiblingStarts(raw, raw0, f, a, start, v, fill);
    StrideIsRegisters(child0, child, sub0, v, fill);
    var n, r := Instances(sub.count, v, fill), Registers(sub, v, fill);
    IndexInRange(child0, child, a, i, n, v, fill);
    IndexTimesStride(a, n, i, r);
    StepLands(raw, start, child0.start, g, path, c, a, v, fill);
  }

  lemma FirstStep(raw: RawGroup, path: seq<Step>, v: Valuation, fill: nat)
    requires path != [] && ValidPath(raw, path, v, fill)
    ensures path[0].group < |raw.groups| && path[0].instance < Instances(raw.groups[path[0].group].count, v, fill)
    ensures ValidPath(raw.groups[path[0].group], path[1..], v, fill)
  {
  }

  /** A step lands where it should once its index times the stride comes to what lies before it. */
  lemma StepLands(raw: RawGroup, start: int, at: int, g: Group, path: seq<Step>, c: nat, a: nat, v: Valuation, fill: nat)
    requires path != [] && ValidPath(raw, path, v, fill)
    requires (c, a) == ChildFor(g.children, 0, path[0].group) && c < |g.children| && g.children[c].size.Some?
    requires PlacedRight(raw.groups[path[0].group], at, g.children[c], path[1..], v, fill)
    requires var sub, child := raw.groups[path[0].group], g.children[c];
      var index := a * Instances(sub.count, v, fill) + path[0].instance;
      && 0 <= index < Instances(child.count, v, fill)
      && at + index * StrideOf(child, v) ==
         SubStart(raw, path[0].group, start, v, fill) + path[0].instance * Registers(sub, v, fill)
    ensures PlacedRight(raw, start, g, path, v, fill)
  {
    hide ParsePoints, ChildFor, Total, Registers, SubStart, Instances, OffsetOf, InstanceOffset, TreePath, NodeAt, GroupAt,
         Translated, StrideOf, ValidPath;
    FirstStep(raw, path, v, fill);
    var sub, child := raw.groups[path[0].group], g.children[c];
    var index := a * Instances(sub.count, v, fill) + path[0].instance;
    TranslatedStep(raw, g, path, c, a, v, fill);
    RawStep(raw, path, start, v, fill);
    TreeStep(g, c, index, Translated(sub, child, path[1..], v, fill), v, fill);
  }

  lemma StrideIsRegisters(child0: Group, child: Group, raw: RawGroup, v: Valuation, fill: nat)
    requires SizedRight(child0, raw, v, fill) && child.size == child0.size && child.terms == child0.terms && child.size.Some?
    ensures StrideOf(child, v) == Registers(raw, v, fill)
  {
    hide Registers, Total;
  }

  lemma IndexTimesStride(a: int, n: int, i: int, r: int)
    ensures (a * n + i) * r == a * (n * r) + i * r
  {
    assert (a * n) * r == a * (n * r);
  }

  /** An instance of the `a`-th sibling is one of the instances of the block that stands for them all. */
  lemma IndexInRange(child0: Group, child: Group, a: nat, i: nat, n: nat, v: Valuation, fill: nat)
    requires Multiplicity(child) > 1 ==> child0.count.Fixed? && child0.count.n > 0
    requires child.count == if Multiplicity(child) > 1 then Fixed(child0.count.n * Multiplicity(child)) else child0.count
    requires a < Multiplicity(child) && i < n && n == Instances(child0.count, v, fill)
    ensures a * n + i < Instances(child.count, v, fill)
  {
    hide Multiplicity;
    var m := Multiplicity(child);
    if m > 1 {
      BelowProduct(a, i, n, m);
    } else {
      assert a == 0;
    }
  }

  lemma BelowProduct(a: nat, i: nat, n: nat, m: nat)
    requires a < m && i < n
    ensures a * n + i < n * m
  {
    var d := m - a - 1;
    assert n * (a + 1 + d) == a * n + n + n * d;
  }

  // ----- and nothing else is in the placed tree -----

  lemma {:induction false} FirstOfGrows(children: seq<Group>, d: nat, c: nat)
    requires d < c <= |children|
    ensures FirstOf(children, d) + Multiplicity(children[d]) <= FirstOf(children, c)
  {
    hide Multiplicity;
    if d < c - 1 { FirstOfGrows(children, d, c - 1); }
  }

  lemma {:induction false} ChildForIs(children: seq<Group>, d: nat, c: nat, a: nat)
    requires d <= c < |children| && a < Multiplicity(children[c])
    ensures FirstOf(children, d) <= FirstOf(children, c)
    ensures ChildFor(children, d, FirstOf(children, c) - FirstOf(children, d) + a) == (c, a)
    decreases c - d
  {
    hide Multiplicity;
    if d < c {
      FirstOfGrows(children, d, c);
      ChildForIs(children, d + 1, c, a);
    }
  }

  /** Which sibling, and which of its instances, an instance of the block that stands for them all is. */
  lemma SplitIndex(child0: Group, child: Group, index: nat, n: nat, v: Valuation, fill: nat) returns (a: nat, i: nat)
    requires Multiplicity(child) > 1 ==> child0.count.Fixed? && child0.count.n > 0
    requires child.count == if Multiplicity(child) > 1 then Fixed(child0.count.n * Multiplicity(child)) else child0.count
    requires n == Instances(child0.count, v, fill) && index < Instances(child.count, v, fill)
    ensures a < Multiplicity(child) && i < n && index == a * n + i
  {
    var m := Multiplicity(child);
    if m > 1 {
      a, i := index / n, index % n;
      assert index == a * n + i;
      if a >= m { BelowProduct(m - 1, n - 1, n, m); Grows(m, a, n); }
    } else {
      a, i := 0, index;
    }
  }

  lemma Grows(m: nat, a: nat, n: nat)
    requires m <= a
    ensures n * m <= a * n
  {
    assert a * n == m * n + (a - m) * n;
  }

  /** Every instance of the placed tree is one the definition denotes. */
  lemma {:induction false} PlacedAreInstances(raw: RawGroup, raw0: RawGroup, start: int, counts: map<string, int>,
                                              g: Group, g0: Group, there: seq<Step>, v: Valuation, fill: nat) returns (path: seq<Step>)
    requires Shape(raw) == Shape(raw0) && Consistent(v, counts)
    requires ParseGroup(raw0, start, counts) == Ok(g0)
    requires g.start == g0.start && g.points == g0.points && g.children == g0.children
    requires TreePath(g, there, v, fill)
    ensures ValidPath(raw, path, v, fill) && Translated(raw, g, path, v, fill) == there
    decreases |there|
  {
    hide Shape, ParseGroup, Multiplicity, Region, ChildFor, SizedRight, Instances, ChildrenTrack, SubStart, FirstOf, ShapedAlike;
    if there == [] {
      path := [];
    } else {
      var c, index := there[0].group, there[0].instance;
      var f, child := FirstOf(g.children, c), g.children[c];
      var child0 := ParsedChild(raw0, start, counts, g0, c, v, fill);
      StandsForOne(child);
      ChildIsRegion(raw0, f, child, child0, 0);
      var a, i := SplitIndex(child0, child, index, Instances(child0.count, v, fill), v, fill);
      ChildIsRegion(raw0, f, child, child0, a);
      ShapeParts(raw, raw0);
      var sub := raw.groups[f + a];
      SameCount(sub, raw0.groups[f], counts, child0, v, fill);
      ChildForIs(g.children, 0, c, a);
      assert FirstOf(g.children, 0) == 0 by { FirstOfNone(g.children); }
      var rest := PlacedAreInstances(sub, raw0.groups[f], SubStart(raw0, f, start, v, fill), counts, child, child0, there[1..], v, fill);
      path := [Step(f + a, i)] + rest;
      assert path[1..] == rest;
      TranslatedStep(raw, g, path, c, a, v, fill);
    }
  }

  lemma StandsForOne(child: Group)
    ensures Multiplicity(child) > 0
  {
  }

  lemma FirstOfNone(children: seq<Group>)
    ensures FirstOf(children, 0) == 0
  {
  }

  lemma SameCount(sub: RawGroup, sub0: RawGroup, counts: map<string, int>, child0: Group, v: Valuation, fill: nat)
    requires Shape(sub) == Shape(sub0) && child0.count == Overridden(sub0.count, counts) && Consistent(v, counts)
    ensures Instances(sub.count, v, fill) == Instances(child0.count, v, fill)
  {
    hide Shape;
    ShapeParts(sub, sub0);
    CountHolds(sub0.count, counts, v, fill);
  }

  /** A child of the placed tree, and the group it was parsed as before its siblings were collapsed. */
  lemma ParsedChild(raw: RawGroup, start: int, counts: map<string, int>, g: Group, c: nat, v: Valuation, fill: nat) returns (child0: Group)
    requires ParseGroup(raw, start, counts) == Ok(g) && Consistent(v, counts) && c < |g.children|
    ensures var f := FirstOf(g.children, c);
      && f < |raw.groups| && ParseGroup(raw.groups[f], SubStart(raw, f, start, v, fill), counts) == Ok(child0)
      && g.children[c] == Region(raw.groups, f, child0) && child0.aliases == []
      && child0.count == Overridden(raw.groups[f].count, counts)
      && child0.start == SubStart(raw, f, start, v, fill) && SizedRight(child0, raw.groups[f], v, fill)
  {
    hide ParseGroup, SubStart, Region, SizedRight, Consistent;
    SizesAreRight(raw, start, counts, g, v, fill);
    assert ChildOf(raw, FirstOf(g.children, c), g.children[c], start, counts, v, fill);
    var f := FirstOf(g.children, c);
    child0 := ParseGroup(raw.groups[f], SubStart(raw, f, start, v, fill), counts).value;
    SizesAreRight(raw.groups[f], SubStart(raw, f, start, v, fill), counts, child0, v, fill);
  }
}
