/**
 Which definitions can be generated (`_wire_child`, `_block_scales`, `_emit_point` and
 `_generate_model` in src/modbus_connection/model/sunspec/generate.py), said of the definition alone.
 */
module Generation {
  import opened Wrappers
  import opened Layout
  import opened Placement
  import opened Acceptance
  import opened Emission

  // ----- which points are fields -----

  /** Some point of the definition, at any depth, is scaled by a point of this name. */
  ghost predicate ScalesSome(raw: RawGroup, name: string) {
    || (exists i {:trigger raw.points[i]} :: 0 <= i < |raw.points| && raw.points[i].scale == ByPoint(name))
    || (exists k {:trigger raw.groups[k]} :: 0 <= k < |raw.groups| && ScalesSome(raw.groups[k], name))
  }

  /** A point is a field unless it is a pad, a scale factor some point of the model uses, or the model's header. */
  ghost predicate Shown(raw: RawPoint, model: RawGroup, header: bool) {
    && raw.kind != Pad && !(raw.kind == ScaleFactor && ScalesSome(model, raw.name))
    && !(header && (raw.name == "ID" || raw.name == "L"))
  }

  lemma {:induction false} SameScales(a: RawGroup, b: RawGroup, name: string)
    requires Shape(a) == Shape(b)
    ensures ScalesSome(a, name) ==> ScalesSome(b, name)
  {
    hide Shape;
    ShapeParts(a, b);
    if k {:trigger a.groups[k]} :| 0 <= k < |a.groups| && ScalesSome(a.groups[k], name) {
      SameScales(a.groups[k], b.groups[k], name);
    }
  }

  lemma {:induction false} ReferencedChildren(g: Group, k: nat, name: string)
    requires k <= |g.children|
    ensures name in ReferencedBelow(g, k) <==> exists c {:trigger g.children[c]} :: 0 <= c < k && name in Referenced(g.children[c])
  {
    hide Referenced;
    if k > 0 { ReferencedChildren(g, k - 1, name); }
  }

  /** The factors the generator finds in the parsed tree are those the definition uses. */
  lemma {:induction false} ReferencedIs(raw: RawGroup, start: int, counts: map<string, int>, g: Group, g0: Group, name: string)
    requires ParseGroup(raw, start, counts) == Ok(g0) && g.points == g0.points && g.children == g0.children
    ensures name in Referenced(g) <==> ScalesSome(raw, name)
    decreases raw
  {
    hide ParseGroup, Shape, Region, Collapsed, Referenced, ScalesSome;
    ReferencedHere(g, name);
    ScalesHere(raw, name);
    ParsedBare(raw, start, counts);
    ChildrenParsed(raw, start, counts, g0);
    PointsScale(raw.points, start, name);
    if c {:trigger g.children[c]} :| 0 <= c < |g.children| && name in Referenced(g.children[c]) {
      var f, s := StandsAt(raw, counts, g.children, c);
      RegionKeeps(raw.groups, f, ParseGroup(raw.groups[f], s, counts).value);
      ReferencedIs(raw.groups[f], s, counts, g.children[c], ParseGroup(raw.groups[f], s, counts).value, name);
    }
    if k {:trigger raw.groups[k]} :| 0 <= k < |raw.groups| && ScalesSome(raw.groups[k], name) {
      var c, a := StoodFor(raw, counts, g.children, k);
      var f, s := StandsAt(raw, counts, g.children, c);
      SameScales(raw.groups[k], raw.groups[f], name);
      RegionKeeps(raw.groups, f, ParseGroup(raw.groups[f], s, counts).value);
      ReferencedIs(raw.groups[f], s, counts, g.children[c], ParseGroup(raw.groups[f], s, counts).value, name);
    }
  }

  lemma ReferencedHere(g: Group, name: string)
    ensures name in Referenced(g) <==>
      || (exists p :: p in g.points && p.raw.scale.ByPoint? && p.raw.scale.name == name)
      || (exists c {:trigger g.children[c]} :: 0 <= c < |g.children| && name in Referenced(g.children[c]))
  {
    ReferencedChildren(g, |g.children|, name);
  }

  lemma ScalesHere(raw: RawGroup, name: string)
    ensures ScalesSome(raw, name) <==>
      || (exists i {:trigger raw.points[i]} :: 0 <= i < |raw.points| && raw.points[i].scale == ByPoint(name))
      || (exists k {:trigger raw.groups[k]} :: 0 <= k < |raw.groups| && ScalesSome(raw.groups[k], name))
  {
  }

  lemma PointsScale(raws: seq<RawPoint>, start: int, name: string)
    ensures (exists p :: p in ParsePoints(raws, start) && p.raw.scale.ByPoint? && p.raw.scale.name == name) <==>
            exists i {:trigger raws[i]} :: 0 <= i < |raws| && raws[i].scale == ByPoint(name)
  {
    var points := ParsePoints(raws, start);
    if i {:trigger raws[i]} :| 0 <= i < |raws| && raws[i].scale == ByPoint(name) {
      assert points[i] in points && points[i].raw == raws[i];
    }
    if p :| p in points && p.raw.scale.ByPoint? && p.raw.scale.name == name {
      var i :| 0 <= i < |points| && points[i] == p;
      assert raws[i] == p.raw;
    }
  }

  lemma RegionKeeps(groups: seq<RawGroup>, k: nat, child: Group)
    requires k < |groups|
    ensures Region(groups, k, child).points == child.points && Region(groups, k, child).children == child.children
    ensures Region(groups, k, child).size == child.size && Region(groups, k, child).terms == child.terms
    ensures Region(groups, k, child).start == child.start
  {
    hide SameShaped;
  }

  // ----- sizes -----

  /** Registers of one instance that no count point changes. */
  function FixedSize(raw: RawGroup, counts: map<string, int>): nat
    decreases raw, |raw.groups| + 1
  {
    PointsSize(raw.points, |raw.points|) + FixedSubs(raw, |raw.groups|, counts)
  }

  /** The same of the first `k` nested blocks. */
  function FixedSubs(raw: RawGroup, k: nat, counts: map<string, int>): nat
    requires k <= |raw.groups|
    decreases raw, k
  {
    if k == 0 then 0
    else
      var sub := raw.groups[k - 1];
      FixedSubs(raw, k - 1, counts) + if FixedTimes(sub, counts) then Overridden(sub.count, counts).n * FixedSize(sub, counts) else 0
  }

  /** The registers of one instance depend on the value of a point of this name. */
  predicate DependsOn(raw: RawGroup, name: string, counts: map<string, int>)
    decreases raw
  {
    raw.groups != [] &&
    var last := raw.groups[|raw.groups| - 1];
    if FixedTimes(last, counts) then DependsOn(last, name, counts) else Overridden(last.count, counts) == Named(name)
  }

  // ----- what a block needs to be generated -----

  ghost predicate Declares(points: seq<RawPoint>, name: string) {
    exists i {:trigger points[i]} :: 0 <= i < |points| && points[i].name == name
  }

  ghost predicate DeclaresFactor(points: seq<RawPoint>, name: string) {
    exists i {:trigger points[i]} :: 0 <= i < |points| && points[i].kind == ScaleFactor && points[i].name == name
  }

  predicate IsCounter(points: seq<RawPoint>, i: nat) {
    i < |points| && points[i].kind == CountPoint
  }

  /** Exactly one point is of type count. */
  ghost predicate OneCounter(points: seq<RawPoint>) {
    exists i: nat :: IsCounter(points, i) && forall j: nat :: IsCounter(points, j) ==> j == i
  }

  /** The block has a count: a number, a point's value, or that of its enclosing block's one count point. */
  ghost predicate HasCount(raw: RawGroup, counts: map<string, int>, enclosing: RawGroup) {
    var count := Overridden(raw.count, counts);
    count.Named? || count.n > 0 || OneCounter(enclosing.points)
  }

  /** A stride can be written: nothing in it is unknown, nothing it depends on is missing, and a number is positive. */
  ghost predicate HasStride(raw: RawGroup, counts: map<string, int>, top: RawGroup) {
    match ExtentOf(raw, counts)
    case Unknown => false
    case Known => FixedSize(raw, counts) > 0
    case Counted => forall name :: DependsOn(raw, name, counts) ==> Declares(top.points, name) && name != "ID" && name != "L"
  }

  /** A block of the model itself whose instances are what the rest of the model has room for. */
  ghost predicate FillsModel(raw: RawGroup, counts: map<string, int>, scopes: seq<RawGroup>) {
    |scopes| == 1 && !HasCount(raw, counts, scopes[0]) && ExtentOf(raw, counts).Known? && FixedSize(raw, counts) > 0
  }

  /** The `k`-th block of the last scope can be wired into it. */
  ghost predicate Wirable(k: nat, counts: map<string, int>, scopes: seq<RawGroup>)
    requires scopes != [] && k < |scopes[|scopes| - 1].groups|
  {
    var enclosing, top := scopes[|scopes| - 1], scopes[0];
    var raw := enclosing.groups[k];
    var count := Overridden(raw.count, counts);
    && (count.Named? ==> Declares(enclosing.points, count.point) || Declares(top.points, count.point))
    && (HasCount(raw, counts, enclosing) ==> HasStride(raw, counts, top))
    && (FillsModel(raw, counts, scopes) ==> PointsSize(enclosing.points, |enclosing.points|) + FixedSubs(enclosing, k, counts) >= 2)
  }

  /** Some point is scaled by a factor of its own block. */
  ghost predicate UsesOwn(raw: RawGroup) {
    exists i {:trigger raw.points[i]} :: 0 <= i < |raw.points| && raw.points[i].scale.ByPoint?
      && DeclaresFactor(raw.points, raw.points[i].scale.name)
  }

  /** Some point is scaled by a factor that only the fixed block has. */
  ghost predicate UsesTop(raw: RawGroup, top: RawGroup) {
    exists i {:trigger raw.points[i]} :: 0 <= i < |raw.points| && raw.points[i].scale.ByPoint?
      && !DeclaresFactor(raw.points, raw.points[i].scale.name) && DeclaresFactor(top.points, raw.points[i].scale.name)
  }

  /** Some point is scaled by a factor that only a repeated block around it has. */
  ghost predicate UsesBetween(raw: RawGroup, scopes: seq<RawGroup>)
    requires scopes != []
  {
    exists i, j {:trigger raw.points[i], scopes[j]} :: 0 <= i < |raw.points| && 1 <= j < |scopes| && raw.points[i].scale.ByPoint?
      && !DeclaresFactor(raw.points, raw.points[i].scale.name) && !DeclaresFactor(scopes[0].points, raw.points[i].scale.name)
      && DeclaresFactor(scopes[j].points, raw.points[i].scale.name)
  }

  /** Every point that is a field has a supported type, and its scale factor among those of a block. */
  ghost predicate FieldsEmittable(raw: RawGroup, factors: RawGroup, model: RawGroup, header: bool) {
    forall i {:trigger raw.points[i]} :: 0 <= i < |raw.points| && Shown(raw.points[i], model, header) ==>
      && !raw.points[i].kind.Unsupported?
      && (Scalable(raw.points[i].kind) && raw.points[i].scale.ByPoint? ==> DeclaresFactor(factors.points, raw.points[i].scale.name))
  }

  /** A repeated block and all below it can be generated. */
  ghost predicate Generable(raw: RawGroup, counts: map<string, int>, scopes: seq<RawGroup>)
    requires scopes != []
    decreases raw
  {
    && !UsesBetween(raw, scopes) && !(UsesOwn(raw) && UsesTop(raw, scopes[0]))
    && FieldsEmittable(raw, if UsesOwn(raw) then raw else scopes[0], scopes[0], false)
    && forall k: nat :: k < |raw.groups| ==>
         Wirable(k, counts, scopes + [raw]) && Generable(raw.groups[k], counts, scopes + [raw])
  }

  /** Some block at any depth is repeated by a point of this name. */
  ghost predicate CountsSome(raw: RawGroup, name: string) {
    raw.count == Named(name) || exists k {:trigger raw.groups[k]} :: 0 <= k < |raw.groups| && CountsSome(raw.groups[k], name)
  }

  /** A whole model can be generated. */
  ghost predicate ModelGenerable(raw: RawGroup, counts: map<string, int>) {
    && (forall name :: name in counts ==> CountsSome(raw, name))
    && Acceptable(raw, counts)
    && FieldsEmittable(raw, raw, raw, true)
    && forall k: nat :: k < |raw.groups| ==>
         Wirable(k, counts, [raw]) && Generable(raw.groups[k], counts, [raw])
  }

  // ----- emitted children -----

  lemma {:induction false} ChildrenEmitted(g: Group, n: nat, scales: map<string, int>, scopes: seq<Group>, referenced: set<string>)
    requires n <= |g.children| && scopes != [] && EmitChildren(g, n, scales, scopes, referenced).Ok?
    ensures var groups := EmitChildren(g, n, scales, scopes, referenced).value;
      && |groups| == n
      && forall i {:trigger groups[i]} :: 0 <= i < n ==>
         && Wire(g.children[i], scopes) == Ok(groups[i].wiring)
         && EmitGroup(g.children[i], scales, scopes, referenced) == Ok(groups[i].component)
         && groups[i].aliases == g.children[i].aliases
    decreases n
  {
    hide EmitGroup, Wire;
    if n > 0 { ChildrenEmitted(g, n - 1, scales, scopes, referenced); }
  }

  // ----- sizes and terms of parsed groups -----

  lemma {:induction false} SameFixed(a: RawGroup, b: RawGroup, counts: map<string, int>)
    requires Shape(a) == Shape(b)
    ensures FixedSize(a, counts) == FixedSize(b, counts)
    decreases a, |a.groups| + 1
  {
    hide Shape, PointsSize;
    ShapeParts(a, b);
    SameFixedSubs(a, b, |a.groups|, counts);
  }

  lemma {:induction false} SameFixedSubs(a: RawGroup, b: RawGroup, k: nat, counts: map<string, int>)
    requires Shape(a) == Shape(b) && k <= |a.groups| && |a.groups| == |b.groups|
    ensures FixedSubs(a, k, counts) == FixedSubs(b, k, counts)
    decreases a, k
  {
    hide Shape, FixedSize;
    if k > 0 {
      ShapeParts(a, b);
      ShapeParts(a.groups[k - 1], b.groups[k - 1]);
      SameFixedSubs(a, b, k - 1, counts);
      SameFixed(a.groups[k - 1], b.groups[k - 1], counts);
    }
  }

  lemma {:induction false} SameDepends(a: RawGroup, b: RawGroup, name: string, counts: map<string, int>)
    requires Shape(a) == Shape(b)
    ensures DependsOn(a, name, counts) == DependsOn(b, name, counts)
    decreases a
  {
    hide Shape;
    ShapeParts(a, b);
    if a.groups != [] {
      var n := |a.groups| - 1;
      assert Shape(a.groups[n]) == Shape(b.groups[n]);
      ShapeParts(a.groups[n], b.groups[n]);
      SameDepends(a.groups[n], b.groups[n], name, counts);
    }
  }

  /** Siblings of one shape have as many fixed registers each. */
  lemma {:induction false} SiblingsFixed(raw: RawGroup, k: nat, m: nat, counts: map<string, int>)
    requires k < |raw.groups| && k + m <= |raw.groups| && ShapedAlike(raw.groups, k, k + m)
    ensures FixedSubs(raw, k + m, counts) == FixedSubs(raw, k, counts) +
            m * if FixedTimes(raw.groups[k], counts) then Overridden(raw.groups[k].count, counts).n * FixedSize(raw.groups[k], counts) else 0
  {
    hide Shape, FixedSize;
    if m > 0 {
      SiblingsFixed(raw, k, m - 1, counts);
      var last := raw.groups[k + m - 1];
      ShapeParts(last, raw.groups[k]);
      SameFixed(last, raw.groups[k], counts);
      var one := if FixedTimes(raw.groups[k], counts) then Overridden(raw.groups[k].count, counts).n * FixedSize(raw.groups[k], counts) else 0;
      Distribute(m - 1, 1, one);
    }
  }

  ghost predicate HasTerm(terms: Terms, name: string) {
    exists i {:trigger terms[i]} :: 0 <= i < |terms| && terms[i].0 == name
  }

  lemma {:induction false} AddTermNames(terms: Terms, point: string, registers: int, name: string)
    ensures HasTerm(AddTerm(terms, point, registers), name) <==> HasTerm(terms, name) || name == point
  {
    var now := AddTerm(terms, point, registers);
    if terms == [] {
      assert now[0].0 == point;
    } else if terms[0].0 == point {
      assert forall i :: 0 < i < |terms| ==> now[i] == terms[i];
      assert now[0].0 == point && terms[0].0 == point;
    } else {
      AddTermNames(terms[1..], point, registers, name);
      var tail := AddTerm(terms[1..], point, registers);
      assert now == [terms[0]] + tail;
      ConsTerm(terms[0], tail, name);
      assert terms == [terms[0]] + terms[1..];
      ConsTerm(terms[0], terms[1..], name);
    }
  }

  lemma ConsTerm(first: (string, int), rest: Terms, name: string)
    ensures HasTerm([first] + rest, name) <==> first.0 == name || HasTerm(rest, name)
  {
    var all := [first] + rest;
    assert all[0] == first;
    if HasTerm(rest, name) {
      var i :| 0 <= i < |rest| && rest[i].0 == name;
      assert all[i + 1] == rest[i];
    }
  }

  lemma {:induction false} AddTermsNames(terms: Terms, more: Terms, count: int, n: nat, name: string)
    requires n <= |more|
    ensures HasTerm(AddTerms(terms, more, count, n), name) <==> HasTerm(terms, name) || HasTerm(more[..n], name)
  {
    hide AddTerm;
    if n > 0 {
      AddTermsNames(terms, more, count, n - 1, name);
      AddTermNames(AddTerms(terms, more, count, n - 1), more[n - 1].0, count * more[n - 1].1, name);
      assert more[..n] == more[..n - 1] + [more[n - 1]];
      SnocTerm(more[..n - 1], more[n - 1], name);
    }
  }

  lemma SnocTerm(terms: Terms, last: (string, int), name: string)
    ensures HasTerm(terms + [last], name) <==> HasTerm(terms, name) || last.0 == name
  {
    var all := terms + [last];
    assert all[|terms|] == last;
    if HasTerm(terms, name) {
      var i :| 0 <= i < |terms| && terms[i].0 == name;
      assert all[i] == terms[i];
    }
  }

  /** A parsed group's size is its fixed size, and its terms name what it depends on. */
  ghost predicate FixedRight(size: Option<int>, terms: Terms, raw: RawGroup, counts: map<string, int>) {
    && (size.Some? ==> size.value == FixedSize(raw, counts))
    && (terms != [] ==> forall name :: HasTerm(terms, name) <==> DependsOn(raw, name, counts))
  }

  /** The loop knows the fixed registers so far, and where the next block starts while everything is known. */
  ghost predicate FixedSoFar(raw: RawGroup, k: nat, st: Parsing, start: int, counts: map<string, int>)
    requires k <= |raw.groups|
  {
    && (st.size.Some? ==> st.size.value == PointsSize(raw.points, |raw.points|) + FixedSubs(raw, k, counts))
    && (st.size.Some? && st.terms == [] ==> st.offset == start + st.size.value)
    && (st.terms != [] ==> k > 0 && forall name :: HasTerm(st.terms, name) <==>
          if FixedTimes(raw.groups[k - 1], counts) then DependsOn(raw.groups[k - 1], name, counts)
          else Overridden(raw.groups[k - 1].count, counts) == Named(name))
  }

  lemma AdvanceFixed(raw: RawGroup, k: nat, st: Parsing, parsed: Group, start: int, counts: map<string, int>)
    requires k < |raw.groups| && FixedSoFar(raw, k, st, start, counts) && st.size.Some? && st.terms == []
    requires parsed.count == Overridden(raw.groups[k].count, counts) && FixedRight(parsed.size, parsed.terms, raw.groups[k], counts)
    ensures FixedSoFar(raw, k + Collapsed(raw.groups, k, parsed), Advance(st, Region(raw.groups, k, parsed), start), start, counts)
  {
    hide Shape, SameShaped, AddTerms, AddTerm, PointsSize, FixedSize, FixedSubs, DependsOn, ShapedAlike, HasTerm;
    var m, sub, child := Collapsed(raw.groups, k, parsed), raw.groups[k], Region(raw.groups, k, parsed);
    RegionsAreMaximal(raw.groups, k, parsed);
    SiblingsFixed(raw, k, m, counts);
    RegionRepeats(raw.groups, k, parsed);
    LastIsAlike(raw.groups, k, m, counts);
    if FixedCount(child.count).Some? && parsed.size.Some? {
      var n := parsed.count.n;
      RegionTimes(raw.groups, k, parsed);
      Times(n, m, parsed.size.value);
      TermsCarried(parsed.terms, child.count.n);
    } else if parsed.size.Some? && child.count.Named? && child.terms == [] {
      TermAdded(child.count.point, child.size.value);
    }
  }

  lemma RegionTimes(groups: seq<RawGroup>, k: nat, child: Group)
    requires k < |groups| && FixedCount(child.count).Some?
    ensures Region(groups, k, child).count == Fixed(child.count.n * Collapsed(groups, k, child))
  {
    hide SameShaped;
  }

  lemma Times(n: int, m: int, size: int)
    ensures (n * m) * size == m * (n * size)
  {
    assert (n * m) * size == m * (n * size);
  }

  lemma TermsCarried(terms: Terms, count: int)
    ensures forall name :: HasTerm(AddTerms([], terms, count, |terms|), name) <==> HasTerm(terms, name)
    ensures terms == [] ==> AddTerms([], terms, count, |terms|) == []
  {
    hide AddTerms;
    assert terms[..|terms|] == terms;
    forall name ensures HasTerm(AddTerms([], terms, count, |terms|), name) <==> HasTerm(terms, name) {
      AddTermsNames([], terms, count, |terms|, name);
    }
    if terms == [] { NoTerms(count); }
  }

  lemma TermAdded(point: string, registers: int)
    ensures forall name :: HasTerm(AddTerm([], point, registers), name) <==> name == point
  {
    forall name ensures HasTerm(AddTerm([], point, registers), name) <==> name == point {
      AddTermNames([], point, registers, name);
    }
  }

  lemma LastIsAlike(groups: seq<RawGroup>, k: nat, m: nat, counts: map<string, int>)
    requires k < |groups| && 0 < m && k + m <= |groups| && ShapedAlike(groups, k, k + m)
    ensures FixedTimes(groups[k + m - 1], counts) == FixedTimes(groups[k], counts)
    ensures Overridden(groups[k + m - 1].count, counts) == Overridden(groups[k].count, counts)
    ensures forall name :: DependsOn(groups[k + m - 1], name, counts) == DependsOn(groups[k], name, counts)
  {
    hide Shape, DependsOn;
    var last := groups[k + m - 1];
    ShapeParts(last, groups[k]);
    forall name { SameDepends(last, groups[k], name, counts); }
  }

  /** The child was parsed from the definitions from `f` on, behind the fixed registers before them. */
  ghost predicate StemsAt(raw: RawGroup, counts: map<string, int>, start: int, f: nat, child: Group) {
    && f < |raw.groups|
    && var at := start + PointsSize(raw.points, |raw.points|) + FixedSubs(raw, f, counts);
    && ParseGroup(raw.groups[f], at, counts).Ok? && child == Region(raw.groups, f, ParseGroup(raw.groups[f], at, counts).value)
  }

  ghost predicate AllStem(raw: RawGroup, counts: map<string, int>, start: int, k: nat, children: seq<Group>) {
    && FirstOf(children, |children|) == k
    && forall c :: 0 <= c < |children| ==> StemsAt(raw, counts, start, FirstOf(children, c), children[c])
  }

  lemma AddStemAt(raw: RawGroup, counts: map<string, int>, start: int, k: nat, children: seq<Group>, child: Group)
    requires AllStem(raw, counts, start, k, children) && StemsAt(raw, counts, start, k, child)
    ensures AllStem(raw, counts, start, k + Multiplicity(child), children + [child])
  {
    hide StemsAt, Multiplicity;
    var now := children + [child];
    FirstOfPrefix(children, child, |children|);
    forall c | 0 <= c < |now| ensures StemsAt(raw, counts, start, FirstOf(now, c), now[c]) {
      FirstOfPrefix(children, child, c);
    }
  }

  lemma {:induction false} SubsFixed(raw: RawGroup, k: nat, st: Parsing, start: int, counts: map<string, int>)
    requires k <= |raw.groups| && FixedSoFar(raw, k, st, start, counts) && AllStem(raw, counts, start, k, st.children)
    requires ParseSubs(raw, k, st, start, counts).Ok?
    ensures var end := ParseSubs(raw, k, st, start, counts).value;
      FixedSoFar(raw, |raw.groups|, end, start, counts) && AllStem(raw, counts, start, |raw.groups|, end.children)
    decreases raw, |raw.groups| - k
  {
    hide FixedSoFar, AllStem, StemsAt, Region, Collapsed, Advance, FixedRight, ParseGroup;
    if k < |raw.groups| {
      var parsed := ParseGroup(raw.groups[k], st.offset, counts).value;
      var child := Region(raw.groups, k, parsed);
      ParsedFixed(raw.groups[k], st.offset, counts);
      ParsedBare(raw.groups[k], st.offset, counts);
      AdvanceFixed(raw, k, st, parsed, start, counts);
      RegionStandsFor(raw, k, parsed);
      AdvanceAddsChild(st, child, start);
      StemsHere(raw, k, st, start, counts);
      AddStemAt(raw, counts, start, k, st.children, child);
      SubsFixed(raw, k + Collapsed(raw.groups, k, parsed), Advance(st, child, start), start, counts);
    }
  }

  lemma StemsHere(raw: RawGroup, k: nat, st: Parsing, start: int, counts: map<string, int>)
    requires k < |raw.groups| && FixedSoFar(raw, k, st, start, counts) && st.size.Some? && st.terms == []
    requires ParseGroup(raw.groups[k], st.offset, counts).Ok?
    ensures StemsAt(raw, counts, start, k, Region(raw.groups, k, ParseGroup(raw.groups[k], st.offset, counts).value))
  {
    hide ParseGroup, Region, FixedSubs, PointsSize;
  }

  lemma {:induction false} ParsedFixed(raw: RawGroup, start: int, counts: map<string, int>)
    requires ParseGroup(raw, start, counts).Ok?
    ensures var g := ParseGroup(raw, start, counts).value;
      FixedRight(g.size, g.terms, raw, counts) && AllStem(raw, counts, start, |raw.groups|, g.children)
    decreases raw, |raw.groups| + 1
  {
    hide AllStem, StemsAt, PointsSize, ParseSubs, ParsePoints;
    var st := StartParsing(raw, start);
    assert AllStem(raw, counts, start, 0, []) by { NoStems(raw, counts, start); }
    SubsFixed(raw, 0, st, start, counts);
  }

  lemma NoStems(raw: RawGroup, counts: map<string, int>, start: int)
    ensures AllStem(raw, counts, start, 0, [])
  {
  }

  // ----- names of points -----

  /** Placed points are those of the definition. */
  ghost predicate Mirrors(points: seq<Point>, raws: seq<RawPoint>) {
    |points| == |raws| && forall i {:trigger points[i]} {:trigger raws[i]} :: 0 <= i < |points| ==> points[i].raw == raws[i]
  }

  lemma ParsedMirror(raws: seq<RawPoint>, start: int)
    ensures Mirrors(ParsePoints(raws, start), raws)
  {
  }

  lemma {:induction false} FirstNamedIs(points: seq<Point>, name: string, i: nat)
    requires i <= |points|
    ensures FirstNamed(points, name, i).Some? <==> exists j {:trigger points[j]} :: i <= j < |points| && points[j].raw.name == name
    decreases |points| - i
  {
    if i < |points| && points[i].raw.name != name { FirstNamedIs(points, name, i + 1); }
  }

  lemma DeclaresIs(points: seq<Point>, raws: seq<RawPoint>, name: string)
    requires Mirrors(points, raws)
    ensures FirstNamed(points, name, 0).Some? <==> Declares(raws, name)
  {
    FirstNamedIs(points, name, 0);
    if j {:trigger points[j]} :| 0 <= j < |points| && points[j].raw.name == name { assert raws[j].name == name; }
    if j {:trigger raws[j]} :| 0 <= j < |raws| && raws[j].name == name { assert points[j].raw.name == name; }
  }

  lemma {:induction false} AttributeIs(points: seq<Point>, raws: seq<RawPoint>, name: string, n: nat)
    requires Mirrors(points, raws) && n <= |points|
    ensures AttributeOf(points, name, n).Some? <==>
            name != "ID" && name != "L" && exists i {:trigger raws[i]} :: 0 <= i < n && raws[i].name == name
  {
    if n > 0 {
      AttributeIs(points, raws, name, n - 1);
      assert points[n - 1].raw == raws[n - 1];
    }
  }

  lemma {:induction false} FactorIs(points: seq<Point>, raws: seq<RawPoint>, name: string, n: nat)
    requires Mirrors(points, raws) && n <= |points|
    ensures name in ScaleAddresses(points, n) <==>
            exists i {:trigger raws[i]} :: 0 <= i < n && raws[i].kind == ScaleFactor && raws[i].name == name
  {
    if n > 0 {
      FactorIs(points, raws, name, n - 1);
      assert points[n - 1].raw == raws[n - 1];
    }
  }

  /** None, one or two of the first points of type count. */
  lemma {:induction false} CounterWitness(points: seq<Point>, raws: seq<RawPoint>, n: nat) returns (i: nat, j: nat)
    requires Mirrors(points, raws) && n <= |points|
    ensures |CountPoints(points, n)| == 0 ==> forall k: nat :: k < n ==> !IsCounter(raws, k)
    ensures |CountPoints(points, n)| == 1 ==> i < n && IsCounter(raws, i) && forall k: nat :: k < n && IsCounter(raws, k) ==> k == i
    ensures |CountPoints(points, n)| > 1 ==> i < j < n && IsCounter(raws, i) && IsCounter(raws, j)
  {
    i, j := 0, 0;
    if n > 0 {
      i, j := CounterWitness(points, raws, n - 1);
      assert points[n - 1].raw == raws[n - 1];
      if IsCounter(raws, n - 1) {
        if |CountPoints(points, n - 1)| == 0 { i := n - 1; }
        if |CountPoints(points, n - 1)| == 1 { j := n - 1; }
      }
    }
  }

  lemma CountersAre(points: seq<Point>, raws: seq<RawPoint>)
    requires Mirrors(points, raws)
    ensures |CountPoints(points, |points|)| == 1 <==> OneCounter(raws)
  {
    var i, j := CounterWitness(points, raws, |points|);
  }

  // ----- wiring -----

  /** Parsed scopes have the points of the definition's. */
  ghost predicate ScopesMirror(scopes: seq<Group>, raws: seq<RawGroup>) {
    |scopes| == |raws| && forall i {:trigger scopes[i]} {:trigger raws[i]} :: 0 <= i < |scopes| ==> Mirrors(scopes[i].points, raws[i].points)
  }

  /** What a child of the last scope has of the definition it was parsed from. */
  ghost predicate ChildHas(child: Group, raw: RawGroup, counts: map<string, int>) {
    && (FixedCount(child.count).Some? <==> FixedTimes(raw, counts))
    && (FixedCount(child.count).None? ==> child.count == Overridden(raw.count, counts))
    && Tells(child.size, child.terms, ExtentOf(raw, counts)) && FixedRight(child.size, child.terms, raw, counts)
  }

  /** A block's stride can be written exactly when the definition allows it. */
  lemma StrideIff(child: Group, raw: RawGroup, counts: map<string, int>, top: Group, rawTop: RawGroup)
    requires ChildHas(child, raw, counts) && Mirrors(top.points, rawTop.points)
    ensures var stride := StrideExpression(child, top.points);
      stride.Ok? && stride.value.Some? && Usable(stride.value.value) <==> HasStride(raw, counts, rawTop)
  {
    hide ExtentOf, FixedSize, DependsOn, AttributeOf, StrideTerms, Declares;
    if child.size.Some? {
      TermsIff(child.terms, |child.terms|, top.points, rawTop.points);
      assert child.terms[..|child.terms|] == child.terms;
      if child.terms == [] { NoStrideTerms(top.points); } else { StrideTermsLength(child.terms, |child.terms|, top.points); }
    }
  }

  lemma NoStrideTerms(top: seq<Point>)
    ensures StrideTerms([], 0, top) == Ok([])
  {
  }

  lemma {:induction false} StrideTermsLength(terms: Terms, n: nat, top: seq<Point>)
    requires n <= |terms|
    ensures StrideTerms(terms, n, top).Ok? ==> |StrideTerms(terms, n, top).value| == n
    decreases n
  {
    if n > 0 { StrideTermsLength(terms, n - 1, top); }
  }

  /** A point of the model's own block has the name, and an attribute. */
  ghost predicate HasAttribute(raws: seq<RawPoint>, name: string) {
    Declares(raws, name) && name != "ID" && name != "L"
  }

  lemma {:induction false} TermsIff(terms: Terms, n: nat, top: seq<Point>, raws: seq<RawPoint>)
    requires n <= |terms| && Mirrors(top, raws)
    ensures StrideTerms(terms, n, top).Ok? <==> forall name :: HasTerm(terms[..n], name) ==> HasAttribute(raws, name)
    decreases n
  {
    hide AttributeOf, HasAttribute, HasTerm;
    if n > 0 {
      TermsIff(terms, n - 1, top, raws);
      assert terms[..n] == terms[..n - 1] + [terms[n - 1]];
      forall name ensures HasTerm(terms[..n], name) <==> HasTerm(terms[..n - 1], name) || terms[n - 1].0 == name {
        SnocTerm(terms[..n - 1], terms[n - 1], name);
      }
      DeclaredAttribute(top, raws, terms[n - 1].0);
      assert HasTerm(terms[..n], terms[n - 1].0);
    } else {
      NoTermNamed(terms[..0]);
    }
  }

  lemma NoTermNamed(terms: Terms)
    requires terms == []
    ensures forall name :: !HasTerm(terms, name)
  {
  }

  lemma DeclaredAttribute(top: seq<Point>, raws: seq<RawPoint>, name: string)
    requires Mirrors(top, raws)
    ensures AttributeOf(top, name, |top|).Some? <==> HasAttribute(raws, name)
  {
    AttributeIs(top, raws, name, |top|);
  }

  /** The block's count can be written, and is there at all, exactly when the definition says so. */
  lemma CountIff(child: Group, raw: RawGroup, counts: map<string, int>, scopes: seq<Group>, raws: seq<RawGroup>)
    requires scopes != [] && ScopesMirror(scopes, raws) && ChildHas(child, raw, counts)
    ensures var counted, count, enclosing := CountExpression(child.count, scopes), Overridden(raw.count, counts), raws[|raws| - 1];
      && (counted.Ok? <==> (count.Named? ==> Declares(enclosing.points, count.point) || Declares(raws[0].points, count.point)))
      && (counted.Ok? ==> (counted.value.Some? <==> HasCount(raw, counts, enclosing)))
  {
    hide Declares, FirstNamed, CountPoints, OneCounter, Tells, FixedRight;
    var enclosing, top := scopes[|scopes| - 1], scopes[0];
    assert Mirrors(enclosing.points, raws[|raws| - 1].points) && Mirrors(top.points, raws[0].points);
    CountersAre(enclosing.points, raws[|raws| - 1].points);
    if child.count.Named? {
      DeclaresIs(enclosing.points, raws[|raws| - 1].points, child.count.point);
      DeclaresIs(top.points, raws[0].points, child.count.point);
    }
  }

  /** A block can be wired, and is, exactly when the definition says so. */
  lemma WireIff(child: Group, k: nat, counts: map<string, int>, scopes: seq<Group>, raws: seq<RawGroup>)
    requires scopes != [] && ScopesMirror(scopes, raws) && k < |raws[|raws| - 1].groups|
    requires ChildHas(child, raws[|raws| - 1].groups[k], counts)
    requires |scopes| == 1 ==> child.start == PointsSize(raws[0].points, |raws[0].points|) + FixedSubs(raws[0], k, counts)
    ensures Wire(child, scopes).Ok? <==> Wirable(k, counts, raws)
    ensures Wire(child, scopes).Ok? ==>
      var raw := raws[|raws| - 1].groups[k];
      && (Wire(child, scopes).value.Unwired? <==> !HasCount(raw, counts, raws[|raws| - 1]) && !FillsModel(raw, counts, raws))
      && (Wire(child, scopes).value.ToModelEnd? <==> FillsModel(raw, counts, raws))
  {
    hide CountExpression, StrideExpression, HasStride, HasCount, Declares, ExtentOf, FixedSize, FixedSubs, PointsSize, DependsOn, HasTerm;
    var raw := raws[|raws| - 1].groups[k];
    CountIff(child, raw, counts, scopes, raws);
    assert Mirrors(scopes[0].points, raws[0].points);
    StrideIff(child, raw, counts, scopes[0], raws[0]);
  }

  // ----- scale factors and fields -----

  lemma FactorOf(points: seq<Point>, raws: seq<RawPoint>, name: string)
    requires Mirrors(points, raws)
    ensures name in Scales(points) <==> DeclaresFactor(raws, name)
  {
    FactorIs(points, raws, name, |points|);
  }

  lemma InsideIs(g: Group, raw: RawGroup)
    requires Mirrors(g.points, raw.points)
    ensures ScaledInside(g.points) <==> UsesOwn(raw)
  {
    hide Scales, DeclaresFactor;
    forall name { FactorOf(g.points, raw.points, name); }
    if p :| p in g.points && p.raw.scale.ByPoint? && p.raw.scale.name in Scales(g.points) {
      var i :| 0 <= i < |g.points| && g.points[i] == p;
      assert raw.points[i] == p.raw;
    }
    if UsesOwn(raw) {
      var i {:trigger raw.points[i]} :| 0 <= i < |raw.points| && raw.points[i].scale.ByPoint? && DeclaresFactor(raw.points, raw.points[i].scale.name);
      assert g.points[i] in g.points && g.points[i].raw == raw.points[i];
    }
  }

  lemma TopIs(g: Group, raw: RawGroup, top: map<string, int>, rawTop: RawGroup)
    requires Mirrors(g.points, raw.points) && forall name :: name in top <==> DeclaresFactor(rawTop.points, name)
    ensures ScaledByTop(g.points, top) <==> UsesTop(raw, rawTop)
  {
    hide Scales, DeclaresFactor;
    forall name { FactorOf(g.points, raw.points, name); }
    if p :| p in g.points && p.raw.scale.ByPoint? && p.raw.scale.name !in Scales(g.points) && p.raw.scale.name in top {
      var i :| 0 <= i < |g.points| && g.points[i] == p;
      assert raw.points[i] == p.raw;
    }
    if UsesTop(raw, rawTop) {
      var i {:trigger raw.points[i]} :| 0 <= i < |raw.points| && raw.points[i].scale.ByPoint?
        && !DeclaresFactor(raw.points, raw.points[i].scale.name) && DeclaresFactor(rawTop.points, raw.points[i].scale.name);
      assert g.points[i] in g.points && g.points[i].raw == raw.points[i];
    }
  }

  lemma BetweenIs(g: Group, raw: RawGroup, top: map<string, int>, scopes: seq<Group>, raws: seq<RawGroup>)
    requires Mirrors(g.points, raw.points) && scopes != [] && ScopesMirror(scopes, raws)
    requires forall name :: name in top <==> DeclaresFactor(raws[0].points, name)
    ensures ScaledBetween(g.points, top, scopes) <==> UsesBetween(raw, raws)
  {
    hide Scales, DeclaresFactor;
    forall name { FactorOf(g.points, raw.points, name); }
    forall j, name | 0 <= j < |scopes| ensures name in Scales(scopes[j].points) <==> DeclaresFactor(raws[j].points, name) {
      assert Mirrors(scopes[j].points, raws[j].points);
      FactorOf(scopes[j].points, raws[j].points, name);
    }
    if ScaledBetween(g.points, top, scopes) {
      var p, j :| p in g.points && p.raw.scale.ByPoint? && p.raw.scale.name !in Scales(g.points) && p.raw.scale.name !in top
                  && 1 <= j < |scopes| && p.raw.scale.name in Scales(scopes[j].points);
      var i :| 0 <= i < |g.points| && g.points[i] == p;
      assert raw.points[i] == p.raw && raws[j] == raws[j];
    }
    if UsesBetween(raw, raws) {
      var i, j {:trigger raw.points[i], raws[j]} :| 0 <= i < |raw.points| && 1 <= j < |raws| && raw.points[i].scale.ByPoint?
        && !DeclaresFactor(raw.points, raw.points[i].scale.name) && !DeclaresFactor(raws[0].points, raw.points[i].scale.name)
        && DeclaresFactor(raws[j].points, raw.points[i].scale.name);
      assert g.points[i] in g.points && g.points[i].raw == raw.points[i];
      assert scopes[j] == scopes[j];
    }
  }

  /** Every shown point among the first ones can be emitted. */
  ghost predicate EmittableUpTo(raws: seq<RawPoint>, n: nat, factors: RawGroup, model: RawGroup, header: bool)
    requires n <= |raws|
  {
    forall i {:trigger raws[i]} :: 0 <= i < n && Shown(raws[i], model, header) ==>
      && !raws[i].kind.Unsupported?
      && (Scalable(raws[i].kind) && raws[i].scale.ByPoint? ==> DeclaresFactor(factors.points, raws[i].scale.name))
  }

  lemma {:induction false} FieldsIff(points: seq<Point>, raws: seq<RawPoint>, n: nat, referenced: set<string>, scales: map<string, int>,
                                     factors: RawGroup, model: RawGroup, header: bool)
    requires Mirrors(points, raws) && n <= |points|
    requires forall name :: name in referenced <==> ScalesSome(model, name)
    requires forall name :: name in scales <==> DeclaresFactor(factors.points, name)
    ensures EmitFields(points, n, referenced, scales, header).Ok? <==> EmittableUpTo(raws, n, factors, model, header)
    decreases n
  {
    hide DeclaresFactor, ScalesSome, Scalable, WidthOf;
    if n > 0 {
      FieldsIff(points, raws, n - 1, referenced, scales, factors, model, header);
      assert points[n - 1].raw == raws[n - 1];
    }
  }

  // ----- blocks -----

  /** What every block is generated with: the fixed block's factors and the factors that some point uses. */
  ghost predicate ModelOf(model: RawGroup, top: map<string, int>, referenced: set<string>) {
    && (forall name :: name in referenced <==> ScalesSome(model, name))
    && (forall name :: name in top <==> DeclaresFactor(model.points, name))
  }

  /** A block's own class can be emitted, its nested blocks aside. */
  ghost predicate OwnGenerable(raw: RawGroup, raws: seq<RawGroup>)
    requires raws != []
  {
    && !UsesBetween(raw, raws) && !(UsesOwn(raw) && UsesTop(raw, raws[0]))
    && FieldsEmittable(raw, if UsesOwn(raw) then raw else raws[0], raws[0], false)
  }

  lemma OwnIff(g: Group, raw: RawGroup, top: map<string, int>, scopes: seq<Group>, raws: seq<RawGroup>, referenced: set<string>)
    requires Mirrors(g.points, raw.points) && scopes != [] && ScopesMirror(scopes, raws) && ModelOf(raws[0], top, referenced)
    ensures var scales := BlockScales(g.points, top, scopes);
      scales.Ok? && EmitFields(g.points, |g.points|, referenced, scales.value.0, false).Ok? <==> OwnGenerable(raw, raws)
  {
    hide Scales, DeclaresFactor, ScaledInside, ScaledByTop, ScaledBetween, UsesBetween, UsesOwn, UsesTop, EmitFields, ScalesSome, Shown;
    InsideIs(g, raw);
    TopIs(g, raw, top, raws[0]);
    BetweenIs(g, raw, top, scopes, raws);
    var scales := BlockScales(g.points, top, scopes);
    if scales.Ok? {
      var factors := if UsesOwn(raw) then raw else raws[0];
      forall name ensures name in scales.value.0 <==> DeclaresFactor(factors.points, name) { FactorOf(g.points, raw.points, name); }
      FieldsIff(g.points, raw.points, |g.points|, referenced, scales.value.0, factors, raws[0], false);
    }
  }

  ghost predicate ChildOk(g: Group, c: nat, top: map<string, int>, scopes: seq<Group>, referenced: set<string>)
    requires scopes != [] && c < |g.children|
  {
    EmitGroup(g.children[c], top, scopes, referenced).Ok? && Wire(g.children[c], scopes).Ok?
  }

  ghost predicate SubOk(raw: RawGroup, k: nat, counts: map<string, int>, raws: seq<RawGroup>)
    requires raws != [] && raws[|raws| - 1] == raw && k < |raw.groups|
  {
    Wirable(k, counts, raws) && Generable(raw.groups[k], counts, raws)
  }

  lemma {:induction false} ChildrenIff(g: Group, n: nat, top: map<string, int>, scopes: seq<Group>, referenced: set<string>)
    requires n <= |g.children| && scopes != []
    ensures EmitChildren(g, n, top, scopes, referenced).Ok? <==>
            forall c: nat :: c < n ==> ChildOk(g, c, top, scopes, referenced)
    decreases n
  {
    hide EmitGroup, Wire;
    if n > 0 {
      ChildrenIff(g, n - 1, top, scopes, referenced);
      assert ChildOk(g, n - 1, top, scopes, referenced) <==>
             EmitGroup(g.children[n - 1], top, scopes, referenced).Ok? && Wire(g.children[n - 1], scopes).Ok?;
    }
  }

  /** The group was parsed from the definition; only its name and count may differ. */
  ghost predicate ParsedFrom(g: Group, raw: RawGroup, counts: map<string, int>) {
    exists at {:trigger ParseGroup(raw, at, counts)} :: ParseGroup(raw, at, counts).Ok?
      && g.points == ParseGroup(raw, at, counts).value.points && g.children == ParseGroup(raw, at, counts).value.children
  }

  /** A child of a parsed group and the definition it stands for first. */
  lemma ChildOfParsed(g: Group, raw: RawGroup, counts: map<string, int>, c: nat) returns (f: nat)
    requires ParsedFrom(g, raw, counts) && c < |g.children|
    ensures f == FirstOf(g.children, c) < |raw.groups|
    ensures ChildHas(g.children[c], raw.groups[f], counts) && ParsedFrom(g.children[c], raw.groups[f], counts)
  {
    hide ParseGroup, StemsAt, Tells, FixedRight, FirstOf, Region;
    var at :| ParseGroup(raw, at, counts).Ok? && g.points == ParseGroup(raw, at, counts).value.points
              && g.children == ParseGroup(raw, at, counts).value.children;
    ParsedFixed(raw, at, counts);
    f := FirstOf(g.children, c);
    assert StemsAt(raw, counts, at, f, g.children[c]);
    StemHas(raw, counts, at, f, g.children[c]);
  }

  lemma StemHas(raw: RawGroup, counts: map<string, int>, start: int, f: nat, child: Group)
    requires StemsAt(raw, counts, start, f, child)
    ensures f < |raw.groups| && ChildHas(child, raw.groups[f], counts) && ParsedFrom(child, raw.groups[f], counts)
    ensures child.start == start + PointsSize(raw.points, |raw.points|) + FixedSubs(raw, f, counts)
  {
    hide ParseGroup, Tells, Region, FixedSubs, PointsSize, Acceptable, ExtentOf;
    var at := start + PointsSize(raw.points, |raw.points|) + FixedSubs(raw, f, counts);
    var parsed := ParseGroup(raw.groups[f], at, counts).value;
    AcceptedIff(raw.groups[f], at, counts);
    ParsedFixed(raw.groups[f], at, counts);
    ParsedBare(raw.groups[f], at, counts);
    RegionRepeats(raw.groups, f, parsed);
    RegionKeeps(raw.groups, f, parsed);
  }

  /** Which child stands for a definition, whose shape it has. */
  lemma ChildStandsFor(g: Group, raw: RawGroup, counts: map<string, int>, k: nat) returns (c: nat)
    requires ParsedFrom(g, raw, counts) && k < |raw.groups|
    ensures c < |g.children| && FirstOf(g.children, c) < |raw.groups| && Shape(raw.groups[k]) == Shape(raw.groups[FirstOf(g.children, c)])
    ensures FirstOf(g.children, c) == k || FixedTimes(raw.groups[FirstOf(g.children, c)], counts)
    ensures c == ChildFor(g.children, 0, k).0
  {
    hide ParseGroup, ChildrenStem, Shape, FirstOf;
    var at :| ParseGroup(raw, at, counts).Ok? && g.points == ParseGroup(raw, at, counts).value.points
              && g.children == ParseGroup(raw, at, counts).value.children;
    ChildrenParsed(raw, at, counts, ParseGroup(raw, at, counts).value);
    var a;
    c, a := StoodFor(raw, counts, g.children, k);
  }

  // ----- blocks of one shape -----

  ghost predicate ScopesAlike(a: seq<RawGroup>, b: seq<RawGroup>) {
    |a| == |b| && a != [] && a[0] == b[0] && forall i {:trigger a[i]} {:trigger b[i]} :: 0 <= i < |a| ==> Shape(a[i]) == Shape(b[i])
  }

  lemma SameWirable(j: nat, k: nat, counts: map<string, int>, a: seq<RawGroup>, b: seq<RawGroup>)
    requires ScopesAlike(a, b) && j < |a[|a| - 1].groups| && k < |b[|b| - 1].groups|
    requires Shape(a[|a| - 1].groups[j]) == Shape(b[|b| - 1].groups[k])
    requires |a| == 1 ==> j == k || FixedTimes(a[0].groups[j], counts)
    requires Wirable(j, counts, a)
    ensures Wirable(k, counts, b)
  {
    hide Shape, ExtentOf, FixedSize, FixedSubs, Declares, OneCounter, DependsOn, PointsSize;
    var x, y := a[|a| - 1].groups[j], b[|b| - 1].groups[k];
    assert Shape(a[|a| - 1]) == Shape(b[|b| - 1]);
    ShapeParts(a[|a| - 1], b[|b| - 1]);
    ShapeParts(x, y);
    SameExtent(x, y, counts);
    SameFixed(x, y, counts);
    forall name { SameDepends(x, y, name, counts); }
  }

  lemma SameOwn(x: RawGroup, y: RawGroup, a: seq<RawGroup>, b: seq<RawGroup>)
    requires Shape(x) == Shape(y) && ScopesAlike(a, b) && OwnGenerable(x, a)
    ensures OwnGenerable(y, b)
  {
    hide Shape, DeclaresFactor, Shown, Scalable;
    ShapeParts(x, y);
    assert UsesOwn(y) <==> UsesOwn(x);
    assert UsesTop(y, b[0]) <==> UsesTop(x, a[0]);
    if UsesBetween(y, b) {
      var i, j {:trigger y.points[i], b[j]} :| 0 <= i < |y.points| && 1 <= j < |b| && y.points[i].scale.ByPoint?
        && !DeclaresFactor(y.points, y.points[i].scale.name) && !DeclaresFactor(b[0].points, y.points[i].scale.name)
        && DeclaresFactor(b[j].points, y.points[i].scale.name);
      assert Shape(a[j]) == Shape(b[j]);
      ShapeParts(a[j], b[j]);
    }
  }

  lemma {:induction false} SameGenerable(x: RawGroup, y: RawGroup, counts: map<string, int>, a: seq<RawGroup>, b: seq<RawGroup>)
    requires Shape(x) == Shape(y) && ScopesAlike(a, b) && Generable(x, counts, a)
    ensures Generable(y, counts, b)
    decreases x
  {
    hide Shape, Wirable, OwnGenerable, UsesBetween, UsesOwn, UsesTop, FieldsEmittable;
    ShapeParts(x, y);
    GenerableParts(x, counts, a);
    SameOwn(x, y, a, b);
    assert ScopesAlike(a + [x], b + [y]);
    forall k: nat | k < |y.groups| ensures SubOk(y, k, counts, b + [y]) {
      assert SubOk(x, k, counts, a + [x]);
      assert Shape(x.groups[k]) == Shape(y.groups[k]);
      SameWirable(k, k, counts, a + [x], b + [y]);
      SameGenerable(x.groups[k], y.groups[k], counts, a + [x], b + [y]);
    }
    GenerableParts(y, counts, b);
  }

  lemma GenerableParts(raw: RawGroup, counts: map<string, int>, raws: seq<RawGroup>)
    requires raws != []
    ensures Generable(raw, counts, raws) <==>
            OwnGenerable(raw, raws) && forall k: nat :: k < |raw.groups| ==> SubOk(raw, k, counts, raws + [raw])
  {
    hide UsesBetween, UsesOwn, UsesTop, FieldsEmittable, Wirable;
    forall k: nat | k < |raw.groups|
      ensures SubOk(raw, k, counts, raws + [raw]) <==> Wirable(k, counts, raws + [raw]) && Generable(raw.groups[k], counts, raws + [raw])
    {
    }
  }

  // ----- the whole -----

  /** A block is emitted exactly when the definition allows it. */
  lemma {:induction false} GroupIff(g: Group, raw: RawGroup, counts: map<string, int>, top: map<string, int>, scopes: seq<Group>,
                                    raws: seq<RawGroup>, referenced: set<string>)
    requires ParsedFrom(g, raw, counts) && scopes != [] && ScopesMirror(scopes, raws) && ModelOf(raws[0], top, referenced)
    ensures EmitGroup(g, top, scopes, referenced).Ok? <==> Generable(raw, counts, raws)
    decreases g, 1
  {
    hide ParsedFrom, OwnGenerable, Generable, SubOk, ChildOk, Wirable, BlockScales, EmitFields, EmitChildren, Wire, ModelOf, UsesBetween, UsesOwn, UsesTop, FieldsEmittable, Shape;
    PointsMirror(g, raw, counts);
    OwnIff(g, raw, top, scopes, raws, referenced);
    ChildrenIff(g, |g.children|, top, scopes + [g], referenced);
    GenerableParts(raw, counts, raws);
    BelowIff(g, raw, counts, top, scopes + [g], raws + [raw], referenced);
  }

  lemma PointsMirror(g: Group, raw: RawGroup, counts: map<string, int>)
    requires ParsedFrom(g, raw, counts)
    ensures Mirrors(g.points, raw.points)
  {
    hide ParseGroup, ParsePoints;
    var at :| ParseGroup(raw, at, counts).Ok? && g.points == ParseGroup(raw, at, counts).value.points
              && g.children == ParseGroup(raw, at, counts).value.children;
    ParsedBare(raw, at, counts);
    ParsedMirror(raw.points, at);
  }

  /** All nested blocks of a group are emitted and wired exactly when the definition allows it of all of its own. */
  lemma {:induction false} BelowIff(g: Group, raw: RawGroup, counts: map<string, int>, top: map<string, int>, scopes: seq<Group>,
                                    raws: seq<RawGroup>, referenced: set<string>)
    requires ParsedFrom(g, raw, counts) && |scopes| > 1 && ScopesMirror(scopes, raws) && ModelOf(raws[0], top, referenced)
    requires raws[|raws| - 1] == raw
    ensures (forall c: nat :: c < |g.children| ==> ChildOk(g, c, top, scopes, referenced)) <==>
            (forall k: nat :: k < |raw.groups| ==> SubOk(raw, k, counts, raws))
    decreases g, 0
  {
    hide ParsedFrom, Wirable, Wire, EmitGroup, Generable, ModelOf, Shape, ChildHas, FirstOf, SubOk, ChildOk;
    forall c: nat | c < |g.children|
      ensures FirstOf(g.children, c) < |raw.groups|
      ensures ChildOk(g, c, top, scopes, referenced) <==> SubOk(raw, FirstOf(g.children, c), counts, raws)
    {
      var f := ChildOfParsed(g, raw, counts, c);
      OneIff(g, c, f, raw, counts, top, scopes, raws, referenced);
    }
    if forall c: nat :: c < |g.children| ==> ChildOk(g, c, top, scopes, referenced) {
      forall k: nat | k < |raw.groups| ensures SubOk(raw, k, counts, raws) {
        var c := ChildStandsFor(g, raw, counts, k);
        assert ChildOk(g, c, top, scopes, referenced);
        AlikeOk(raw, FirstOf(g.children, c), k, counts, raws);
      }
    }
  }

  lemma AlikeOk(raw: RawGroup, j: nat, k: nat, counts: map<string, int>, raws: seq<RawGroup>)
    requires raws != [] && raws[|raws| - 1] == raw && j < |raw.groups| && k < |raw.groups|
    requires Shape(raw.groups[j]) == Shape(raw.groups[k]) && SubOk(raw, j, counts, raws)
    requires |raws| == 1 ==> j == k || FixedTimes(raw.groups[j], counts)
    ensures SubOk(raw, k, counts, raws)
  {
    hide Wirable, Generable, Shape;
    SelfAlike(raws);
    SameWirable(j, k, counts, raws, raws);
    SameGenerable(raw.groups[j], raw.groups[k], counts, raws, raws);
  }

  lemma {:induction false} OneIff(g: Group, c: nat, f: nat, raw: RawGroup, counts: map<string, int>, top: map<string, int>,
                                  scopes: seq<Group>, raws: seq<RawGroup>, referenced: set<string>)
    requires |scopes| > 1 && ScopesMirror(scopes, raws) && ModelOf(raws[0], top, referenced) && raws[|raws| - 1] == raw
    requires c < |g.children| && f < |raw.groups|
    requires ChildHas(g.children[c], raw.groups[f], counts) && ParsedFrom(g.children[c], raw.groups[f], counts)
    ensures ChildOk(g, c, top, scopes, referenced) <==> SubOk(raw, f, counts, raws)
    decreases g, 0, 0
  {
    hide ParsedFrom, Wirable, Wire, EmitGroup, Generable, ModelOf, Shape, ChildHas;
    WireIff(g.children[c], f, counts, scopes, raws);
    GroupIff(g.children[c], raw.groups[f], counts, top, scopes, raws, referenced);
  }

  lemma SelfAlike(raws: seq<RawGroup>)
    requires raws != []
    ensures ScopesAlike(raws, raws)
  {
    hide Shape;
  }

  // ----- the model -----

  lemma {:induction false} NamesAre(raw: RawGroup, name: string)
    ensures name in CountNames(raw) <==> CountsSome(raw, name)
    decreases raw, |raw.groups| + 1
  {
    hide CountNames;
    NamesBelowAre(raw, |raw.groups|, name);
    NamesSplit(raw, name);
  }

  lemma NamesSplit(raw: RawGroup, name: string)
    ensures name in CountNames(raw) <==> raw.count == Named(name) || name in CountNamesBelow(raw, |raw.groups|)
  {
  }

  lemma {:induction false} NamesBelowAre(raw: RawGroup, k: nat, name: string)
    requires k <= |raw.groups|
    ensures name in CountNamesBelow(raw, k) <==> exists i {:trigger raw.groups[i]} :: 0 <= i < k && CountsSome(raw.groups[i], name)
    decreases raw, k
  {
    hide CountNames, CountsSome;
    if k > 0 {
      NamesBelowAre(raw, k - 1, name);
      NamesAre(raw.groups[k - 1], name);
    }
  }

  /** A child of the model's own block. */
  lemma TopChildOk(g: Group, c: nat, raw: RawGroup, counts: map<string, int>, top: map<string, int>, referenced: set<string>)
    requires ParseGroup(raw, 0, counts) == Ok(g) && c < |g.children| && ModelOf(raw, top, referenced)
    ensures FirstOf(g.children, c) < |raw.groups|
    ensures ChildOk(g, c, top, [g], referenced) <==> SubOk(raw, FirstOf(g.children, c), counts, [raw])
    ensures Wire(g.children[c], [g]).Ok? ==>
      (Wire(g.children[c], [g]).value.Unwired? <==> !Wires(raw, counts, FirstOf(g.children, c)))
  {
    hide ParseGroup, ParsedFrom, Wirable, Wire, EmitGroup, Generable, ModelOf, ChildHas, FirstOf, StemsAt, HasCount, FillsModel, FixedRight;
    var f := FirstOf(g.children, c);
    ParsedFixed(raw, 0, counts);
    assert StemsAt(raw, counts, 0, f, g.children[c]);
    StemHas(raw, counts, 0, f, g.children[c]);
    TopMirror(g, raw, counts);
    WireIff(g.children[c], f, counts, [g], [raw]);
    GroupIff(g.children[c], raw.groups[f], counts, top, [g], [raw], referenced);
  }

  lemma TopMirror(g: Group, raw: RawGroup, counts: map<string, int>)
    requires ParseGroup(raw, 0, counts) == Ok(g)
    ensures Mirrors(g.points, raw.points) && ScopesMirror([g], [raw]) && ParsedFrom(g, raw, counts)
  {
    hide ParseGroup, ParsePoints;
    ParsedBare(raw, 0, counts);
    ParsedMirror(raw.points, 0);
  }

  /** The `k`-th block of the model is wired into it, not left for its user to size. */
  ghost predicate Wires(raw: RawGroup, counts: map<string, int>, k: nat)
    requires k < |raw.groups|
  {
    HasCount(raw.groups[k], counts, raw) || FillsModel(raw.groups[k], counts, [raw])
  }

  lemma SameWires(raw: RawGroup, counts: map<string, int>, j: nat, k: nat)
    requires j < |raw.groups| && k < |raw.groups| && Shape(raw.groups[j]) == Shape(raw.groups[k])
    ensures Wires(raw, counts, j) <==> Wires(raw, counts, k)
  {
    hide Shape, OneCounter, ExtentOf, FixedSize;
    ShapeParts(raw.groups[j], raw.groups[k]);
    SameExtent(raw.groups[j], raw.groups[k], counts);
    SameFixed(raw.groups[j], raw.groups[k], counts);
  }

  lemma TopBelowIff(g: Group, raw: RawGroup, counts: map<string, int>, top: map<string, int>, referenced: set<string>)
    requires ParseGroup(raw, 0, counts) == Ok(g) && ModelOf(raw, top, referenced)
    ensures (forall c: nat :: c < |g.children| ==> ChildOk(g, c, top, [g], referenced)) <==>
            (forall k: nat :: k < |raw.groups| ==> SubOk(raw, k, counts, [raw]))
  {
    hide ParseGroup, ParsedFrom, ModelOf, Shape, FirstOf, SubOk, ChildOk, Wire, Wires;
    TopMirror(g, raw, counts);
    forall c: nat | c < |g.children|
      ensures FirstOf(g.children, c) < |raw.groups|
      ensures ChildOk(g, c, top, [g], referenced) <==> SubOk(raw, FirstOf(g.children, c), counts, [raw])
    {
      TopChildOk(g, c, raw, counts, top, referenced);
    }
    if forall c: nat :: c < |g.children| ==> ChildOk(g, c, top, [g], referenced) {
      forall k: nat | k < |raw.groups| ensures SubOk(raw, k, counts, [raw]) {
        var c := ChildStandsFor(g, raw, counts, k);
        assert ChildOk(g, c, top, [g], referenced);
        AlikeOk(raw, FirstOf(g.children, c), k, counts, [raw]);
      }
    }
  }

  lemma IsModelOf(g: Group, raw: RawGroup, counts: map<string, int>)
    requires ParseGroup(raw, 0, counts) == Ok(g)
    ensures ModelOf(raw, Scales(g.points), Referenced(g))
  {
    hide ParseGroup, Scales, Referenced, ScalesSome, DeclaresFactor;
    TopMirror(g, raw, counts);
    forall name ensures name in Referenced(g) <==> ScalesSome(raw, name) { ReferencedIs(raw, 0, counts, g, g, name); }
    forall name ensures name in Scales(g.points) <==> DeclaresFactor(raw.points, name) { FactorOf(g.points, raw.points, name); }
  }

  /**
   A model is generated exactly when every override names a count, every block may follow those before it,
   every block that has a count has a stride and every other that is wired fills the model, and every field
   is of a supported type and finds its scale factor in its own block or in the fixed one.
   */
  lemma GenerationSucceedsIff(raw: RawGroup, counts: map<string, int>)
    ensures EmitModel(raw, counts).Ok? <==> ModelGenerable(raw, counts)
  {
    hide ParseGroup, Acceptable, FieldsEmittable, Wirable, Generable, EmitFields, EmitChildren, CountNames, CountsSome, Scales, Referenced, ModelOf, ChildOk;
    forall name { NamesAre(raw, name); }
    AcceptedIff(raw, 0, counts);
    if ParseGroup(raw, 0, counts).Ok? {
      var g := ParseGroup(raw, 0, counts).value;
      IsModelOf(g, raw, counts);
      TopMirror(g, raw, counts);
      TopFields(g, raw, Scales(g.points), Referenced(g));
      ChildrenIff(g, |g.children|, Scales(g.points), [g], Referenced(g));
      TopBelowIff(g, raw, counts, Scales(g.points), Referenced(g));
      forall k: nat | k < |raw.groups|
        ensures SubOk(raw, k, counts, [raw]) <==> Wirable(k, counts, [raw]) && Generable(raw.groups[k], counts, [raw])
      {
      }
    }
  }

  lemma TopFields(g: Group, raw: RawGroup, top: map<string, int>, referenced: set<string>)
    requires Mirrors(g.points, raw.points) && ModelOf(raw, top, referenced)
    ensures EmitFields(g.points, |g.points|, referenced, top, true).Ok? <==> FieldsEmittable(raw, raw, raw, true)
  {
    hide EmitFields, Shown, DeclaresFactor, ScalesSome, Scalable;
    FieldsIff(g.points, raw.points, |g.points|, referenced, top, raw, raw, true);
  }

  /** Which blocks of the model are wired into its class: those with a count, and one that fills the model. */
  lemma WiredIff(raw: RawGroup, counts: map<string, int>, g: Group, model: Class, k: nat)
    requires ParseGroup(raw, 0, counts) == Ok(g) && EmitModel(raw, counts) == Ok(model) && k < |raw.groups|
    ensures var c := ChildFor(g.children, 0, k).0;
      c < |g.children| && |model.groups| == |g.children| && (!model.groups[c].wiring.Unwired? <==> Wires(raw, counts, k))
  {
    hide ParseGroup, EmitFields, EmitGroup, Wire, Scales, Referenced, ModelOf, Shape, FirstOf, Wires, ChildFor;
    IsModelOf(g, raw, counts);
    TopMirror(g, raw, counts);
    ChildrenEmitted(g, |g.children|, Scales(g.points), [g], Referenced(g));
    var c := ChildStandsFor(g, raw, counts, k);
    TopChildOk(g, c, raw, counts, Scales(g.points), Referenced(g));
    SameWires(raw, counts, FirstOf(g.children, c), k);
  }
}
