/**
 Compiling a definition preserves its layout: what the emitted classes read at
 run time is where the definition, laid out in sequence, puts it.
 */
module Compilation {
  import opened Wrappers
  import opened Layout
  import opened Placement
  import opened Acceptance
  import opened Emission
  import opened Generation

  // ----- what a sized block is made of -----

  ghost predicate TermsIn(terms: Terms, names: set<string>) {
    forall i {:trigger terms[i]} :: 0 <= i < |terms| ==> terms[i].0 in names
  }

  ghost predicate NoneNamed(raws: seq<RawPoint>, names: set<string>) {
    forall i {:trigger raws[i]} :: 0 <= i < |raws| ==> raws[i].name !in names
  }

  /** No nested block declares a point with one of these names. */
  ghost predicate FreeBelow(raw: RawGroup, names: set<string>)
    decreases raw, 1
  {
    forall i {:trigger raw.groups[i]} :: 0 <= i < |raw.groups| ==> Free(raw.groups[i], names)
  }

  ghost predicate Free(raw: RawGroup, names: set<string>)
    decreases raw, 2
  {
    NoneNamed(raw.points, names) && FreeBelow(raw, names)
  }

  /** A child with a known size whose count is a number or a point of the fixed block. */
  ghost predicate Countable(child: Group, names: set<string>) {
    && child.size.Some?
    && TermsIn(child.terms, names)
    && (FixedCount(child.count).Some? || (child.count.Named? && child.count.point in names))
  }

  /** Every block at any depth below a sized one is sized and counted from the fixed block. */
  ghost predicate Settled(g: Group, names: set<string>)
    decreases g, 0
  {
    forall i {:trigger g.children[i]} :: 0 <= i < |g.children| ==> SettledChild(g.children[i], names)
  }

  ghost predicate SettledChild(child: Group, names: set<string>)
    decreases child, 1
  {
    && Countable(child, names)
    && (forall i {:trigger child.points[i]} :: 0 <= i < |child.points| ==> child.points[i].raw.name !in names)
    && Settled(child, names)
  }

  lemma {:induction false} AddTermIn(terms: Terms, name: string, registers: int, names: set<string>)
    requires TermsIn(terms, names) && name in names
    ensures TermsIn(AddTerm(terms, name, registers), names)
  {
    if terms != [] && terms[0].0 != name {
      assert TermsIn(terms[1..], names);
      AddTermIn(terms[1..], name, registers, names);
    }
  }

  lemma {:induction false} AddTermsIn(terms: Terms, more: Terms, count: int, n: nat, names: set<string>)
    requires n <= |more| && TermsIn(terms, names) && TermsIn(more, names)
    ensures TermsIn(AddTerms(terms, more, count, n), names)
  {
    hide AddTerm;
    if n > 0 {
      AddTermsIn(terms, more, count, n - 1, names);
      AddTermIn(AddTerms(terms, more, count, n - 1), more[n - 1].0, count * more[n - 1].1, names);
    }
  }

  lemma {:induction false} NamesBelow(raw: RawGroup, k: nat, i: nat)
    requires i < k <= |raw.groups|
    ensures CountNames(raw.groups[i]) <= CountNamesBelow(raw, k)
  {
    hide CountNames;
    if i < k - 1 { NamesBelow(raw, k - 1, i); }
  }

  lemma NamesOfSub(raw: RawGroup, i: nat, names: set<string>)
    requires i < |raw.groups| && CountNames(raw) <= names
    ensures CountNames(raw.groups[i]) <= names
    ensures raw.groups[i].count.Named? ==> raw.groups[i].count.point in names
  {
    NamesBelow(raw, |raw.groups|, i);
  }

  /** What the loop over nested blocks keeps: while the size is known, every child so far is settled. */
  ghost predicate Settling(st: Parsing, names: set<string>) {
    && TermsIn(st.terms, names)
    && (st.size.Some? ==> forall i {:trigger st.children[i]} :: 0 <= i < |st.children| ==> SettledChild(st.children[i], names))
  }

  /** A parsed child, before or after collapsing its siblings. */
  ghost predicate SettledIfSized(child: Group, names: set<string>) {
    && (child.count.Named? ==> child.count.point in names)
    && (forall i {:trigger child.points[i]} :: 0 <= i < |child.points| ==> child.points[i].raw.name !in names)
    && TermsIn(child.terms, names)
    && (child.size.Some? ==> Settled(child, names))
  }

  lemma RegionSettled(groups: seq<RawGroup>, k: nat, child: Group, names: set<string>)
    requires k < |groups| && SettledIfSized(child, names)
    ensures SettledIfSized(Region(groups, k, child), names)
  {
    hide TermsIn, SameShaped;
    var region := Region(groups, k, child);
    assert region.children == child.children;
  }

  lemma AdvanceSettles(st: Parsing, child: Group, start: int, names: set<string>)
    requires Settling(st, names) && st.size.Some? && SettledIfSized(child, names)
    ensures Settling(Advance(st, child, start), names)
  {
    hide Settled, AddTerm, AddTerms, TermsIn;
    var now := Advance(st, child, start);
    if child.size.Some? {
      if FixedCount(child.count).None? && child.count.Named? && child.terms == [] {
        AddTermIn(st.terms, child.count.point, child.size.value, names);
      } else if FixedCount(child.count).Some? {
        AddTermsIn(st.terms, child.terms, child.count.n, |child.terms|, names);
      }
    }
    if now.size.Some? {
      forall i | 0 <= i < |now.children| ensures SettledChild(now.children[i], names) {
        if i < |st.children| {
          assert now.children[i] == st.children[i];
        } else {
          assert now.children[i] == child && Countable(child, names);
        }
      }
    }
  }

  lemma {:induction false} SubsSettle(raw: RawGroup, k: nat, st: Parsing, start: int, counts: map<string, int>, names: set<string>)
    requires k <= |raw.groups| && CountNames(raw) <= names && FreeBelow(raw, names) && Settling(st, names)
    requires ParseSubs(raw, k, st, start, counts).Ok?
    ensures Settling(ParseSubs(raw, k, st, start, counts).value, names)
    decreases raw, |raw.groups| - k
  {
    hide Settling, SettledIfSized, Region, Collapsed, Advance, ParseGroup, CountNames;
    if k < |raw.groups| {
      var parsed := ParseGroup(raw.groups[k], st.offset, counts).value;
      NamesOfSub(raw, k, names);
      assert Free(raw.groups[k], names);
      Settles(raw.groups[k], st.offset, counts, parsed, names);
      RegionSettled(raw.groups, k, parsed, names);
      AdvanceSettles(st, Region(raw.groups, k, parsed), start, names);
      SubsSettle(raw, k + Collapsed(raw.groups, k, parsed), Advance(st, Region(raw.groups, k, parsed), start), start, counts, names);
    }
  }

  lemma {:induction false} Settles(raw: RawGroup, start: int, counts: map<string, int>, g: Group, names: set<string>)
    requires CountNames(raw) <= names && Free(raw, names) && ParseGroup(raw, start, counts) == Ok(g)
    ensures SettledIfSized(g, names)
    decreases raw, |raw.groups| + 1
  {
    hide CountNames, ParseSubs, SettledChild;
    SubsSettle(raw, 0, StartParsing(raw, start), start, counts, names);
    assert raw.count.Named? ==> raw.count.point in names by { OwnName(raw); }
  }

  lemma OwnName(raw: RawGroup)
    ensures raw.count.Named? ==> raw.count.point in CountNames(raw)
  {
  }

  // ----- the outermost block -----

  /** What the outermost block's children are: settled if sized, and only the last one sized by the device. */
  ghost predicate Opened(st: Parsing, names: set<string>) {
    && (forall i {:trigger st.children[i]} :: 0 <= i < |st.children| ==> SettledIfSized(st.children[i], names))
    && (forall i {:trigger st.children[i]} :: 0 <= i < |st.children| && FixedCount(st.children[i].count).None? ==>
        i == |st.children| - 1 && (st.size.None? || st.terms != []))
  }

  lemma AdvanceOpens(st: Parsing, child: Group, start: int, names: set<string>)
    requires Opened(st, names) && st.size.Some? && st.terms == [] && SettledIfSized(child, names)
    ensures Opened(Advance(st, child, start), names)
  {
    hide SettledIfSized, AddTerms, AddTerm;
    var now := Advance(st, child, start);
    assert now.children == st.children + [child];
    if FixedCount(child.count).None? && child.size.Some? && child.count.Named? && child.terms == [] {
      AddTermAdds(st.terms, child.count.point, child.size.value, _ => 0);
    }
    forall i | 0 <= i < |now.children| ensures SettledIfSized(now.children[i], names) {
      if i < |st.children| {
        assert now.children[i] == st.children[i];
      }
    }
  }

  lemma {:induction false} SubsOpen(raw: RawGroup, k: nat, st: Parsing, start: int, counts: map<string, int>, names: set<string>)
    requires k <= |raw.groups| && CountNames(raw) <= names && FreeBelow(raw, names) && Opened(st, names)
    requires ParseSubs(raw, k, st, start, counts).Ok?
    ensures Opened(ParseSubs(raw, k, st, start, counts).value, names)
    decreases |raw.groups| - k
  {
    hide Opened, SettledIfSized, Region, Collapsed, Advance, ParseGroup, CountNames;
    if k < |raw.groups| {
      var parsed := ParseGroup(raw.groups[k], st.offset, counts).value;
      NamesOfSub(raw, k, names);
      assert Free(raw.groups[k], names);
      Settles(raw.groups[k], st.offset, counts, parsed, names);
      RegionSettled(raw.groups, k, parsed, names);
      AdvanceOpens(st, Region(raw.groups, k, parsed), start, names);
      SubsOpen(raw, k + Collapsed(raw.groups, k, parsed), Advance(st, Region(raw.groups, k, parsed), start), start, counts, names);
    }
  }

  /** A device-sized block of the model is the last one, and the rest of the model is its instances. */
  lemma DeviceSizedIsLast(raw: RawGroup, counts: map<string, int>, g: Group, c: nat, v: Valuation, fill: nat)
    requires ParseGroup(raw, 0, counts) == Ok(g) && Consistent(v, counts) && FreeBelow(raw, CountNames(raw))
    requires c < |g.children| && FixedCount(g.children[c].count).None?
    ensures |raw.groups| > 0 && Registers(raw, v, fill) ==
            g.children[c].start + Instances(g.children[c].count, v, fill) * Registers(raw.groups[|raw.groups| - 1], v, fill)
    ensures SizedRight(g.children[c], raw.groups[|raw.groups| - 1], v, fill)
  {
    hide ParseGroup, ChildrenTrack, SettledIfSized, CountNames, SizedRight, PointsSize, Instances, Registers, SubsSize;
    TopOpens(raw, counts, g);
    SizesAreRight(raw, 0, counts, g, v, fill);
    LastTracks(raw, g.children, 0, counts, v, fill);
    var f := |raw.groups| - 1;
    var child0 := ParseGroup(raw.groups[f], SubStart(raw, f, 0, v, fill), counts).value;
    SizesAreRight(raw.groups[f], SubStart(raw, f, 0, v, fill), counts, child0, v, fill);
    CountHolds(raw.groups[f].count, counts, v, fill);
    assert g.children[c] == Region(raw.groups, f, child0);
    LastIsAlone(raw, f, child0);
    RegistersSplit(raw, v, fill);
    SameSize(child0, g.children[c], raw.groups[f], v, fill);
  }

  lemma SameSize(a: Group, b: Group, raw: RawGroup, v: Valuation, fill: nat)
    requires SizedRight(a, raw, v, fill) && a.size == b.size && a.terms == b.terms
    ensures SizedRight(b, raw, v, fill)
  {
  }

  lemma TopOpens(raw: RawGroup, counts: map<string, int>, g: Group)
    requires ParseGroup(raw, 0, counts) == Ok(g) && FreeBelow(raw, CountNames(raw))
    ensures Opened(Parsing(0, g.children, g.size, g.terms), CountNames(raw))
  {
    hide CountNames, SettledIfSized, ParseSubs;
    SubsOpen(raw, 0, StartParsing(raw, 0), 0, counts, CountNames(raw));
  }

  /** The last child stands for the last definitions. */
  lemma LastTracks(raw: RawGroup, children: seq<Group>, start: int, counts: map<string, int>, v: Valuation, fill: nat)
    requires children != [] && ChildrenTrack(raw, |raw.groups|, children, start, counts, v, fill)
    requires FixedCount(children[|children| - 1].count).None?
    ensures |raw.groups| > 0 && ChildOf(raw, |raw.groups| - 1, children[|children| - 1], start, counts, v, fill)
  {
    hide ParseGroup, SubStart, Collapsed;
    var c := |children| - 1;
    assert ChildOf(raw, FirstOf(children, c), children[c], start, counts, v, fill);
    var f := FirstOf(children, c);
    var child0 := ParseGroup(raw.groups[f], SubStart(raw, f, start, v, fill), counts).value;
    assert children[c] == Region(raw.groups, f, child0);
    SizesHide(raw.groups[f], SubStart(raw, f, start, v, fill), counts);
    RegionCount(raw.groups, f, child0);
  }

  lemma SizesHide(raw: RawGroup, start: int, counts: map<string, int>)
    requires ParseGroup(raw, start, counts).Ok?
    ensures ParseGroup(raw, start, counts).value.aliases == []
  {
  }

  lemma RegionCount(groups: seq<RawGroup>, f: nat, child: Group)
    requires f < |groups| && child.aliases == [] && FixedCount(Region(groups, f, child).count).None?
    ensures Multiplicity(Region(groups, f, child)) == 1
  {
    hide SameShaped;
  }

  lemma LastIsAlone(raw: RawGroup, f: nat, child: Group)
    requires f == |raw.groups| - 1
    ensures Region(raw.groups, f, child) == child
  {
  }

  lemma RegistersSplit(raw: RawGroup, v: Valuation, fill: nat)
    requires |raw.groups| > 0
    ensures var f := |raw.groups| - 1;
      Registers(raw, v, fill) == SubStart(raw, f, 0, v, fill) + Instances(raw.groups[f].count, v, fill) * Registers(raw.groups[f], v, fill)
  {
    hide PointsSize, Instances;
  }

  // ----- counts and strides at run time -----

  /** Every point of the fixed block that counts a block reads as its value; 0xFFFF would be unimplemented. */
  ghost predicate CountsRead(points: seq<Point>, names: set<string>, base: int, device: Device, v: Valuation) {
    forall i {:trigger points[i]} :: 0 <= i < |points| && points[i].raw.name in names ==>
      device(base + points[i].address) == v(points[i].raw.name) < 0xFFFF
  }

  lemma {:induction false} FirstReads(points: seq<Point>, name: string, i: nat, names: set<string>, base: int, device: Device, v: Valuation)
    requires i <= |points| && CountsRead(points, names, base, device, v) && name in names
    ensures FirstNamed(points, name, i).Some? ==> CountRead(device, base + FirstNamed(points, name, i).value) == v(name)
    decreases |points| - i
  {
    if i < |points| && points[i].raw.name != name {
      FirstReads(points, name, i + 1, names, base, device, v);
    }
  }

  lemma {:induction false} NotNamed(points: seq<Point>, name: string, i: nat)
    requires i <= |points| && forall j {:trigger points[j]} :: 0 <= j < |points| ==> points[j].raw.name != name
    ensures FirstNamed(points, name, i).None?
    decreases |points| - i
  {
    if i < |points| { NotNamed(points, name, i + 1); }
  }

  lemma {:induction false} AttributeReads(points: seq<Point>, name: string, n: nat, names: set<string>, base: int, device: Device, v: Valuation)
    requires n <= |points| && CountsRead(points, names, base, device, v) && name in names
    ensures AttributeOf(points, name, n).Some? ==> device(base + AttributeOf(points, name, n).value) == v(name)
  {
    if n > 0 && !(points[n - 1].raw.name == name && !Header(points[n - 1])) {
      AttributeReads(points, name, n - 1, names, base, device, v);
    }
  }

  lemma {:induction false} TermsRead(terms: Terms, n: nat, points: seq<Point>, names: set<string>, base: int, device: Device, v: Valuation)
    requires n <= |terms| && TermsIn(terms, names) && CountsRead(points, names, base, device, v)
    requires StrideTerms(terms, n, points).Ok?
    ensures var read := StrideTerms(terms, n, points).value;
      |read| == n && TermsAt(read, n, base, device) == Dot(terms, n, v)
    decreases n
  {
    hide AttributeOf, CountsRead;
    if n > 0 {
      TermsRead(terms, n - 1, points, names, base, device, v);
      AttributeReads(points, terms[n - 1].0, |points|, names, base, device, v);
      var rest := StrideTerms(terms, n - 1, points).value;
      var last := Term(terms[n - 1].0, AttributeOf(points, terms[n - 1].0, |points|).value, terms[n - 1].1);
      TermsAtPrefix(rest, last, n - 1, base, device);
    }
  }

  lemma {:induction false} TermsAtPrefix(terms: seq<Term>, last: Term, n: nat, base: int, device: Device)
    requires n <= |terms|
    ensures TermsAt(terms + [last], n, base, device) == TermsAt(terms, n, base, device)
  {
    if n > 0 { TermsAtPrefix(terms, last, n - 1, base, device); }
  }

  /** An emitted stride evaluates to the registers between neighbouring instances. */
  lemma StrideHolds(child: Group, points: seq<Point>, count: CountRef, names: set<string>, base: int, device: Device, v: Valuation)
    requires TermsIn(child.terms, names) && CountsRead(points, names, base, device, v)
    requires StrideExpression(child, points).Ok? && StrideExpression(child, points).value.Some?
    ensures child.size.Some?
    ensures StrideAt(Repeating(count, StrideExpression(child, points).value.value), base, device) == StrideOf(child, v)
  {
    hide CountsRead, StrideTerms, TermsAt, Dot;
    TermsRead(child.terms, |child.terms|, points, names, base, device, v);
  }

  /** A counted child repeats as often, and as far apart, as the definition says. */
  ghost predicate WiredRight(child: Group, wiring: Wiring, at: Place, v: Valuation, fill: nat, device: Device, span: int) {
    && child.size.Some? && !wiring.Unwired?
    && StrideAt(wiring, at.base, device) == StrideOf(child, v)
    && CountAt(wiring, at, device, span) == Instances(child.count, v, fill)
  }

  /** A child counted by a number or a fixed-block point: an enclosing block's own points move with it, the fixed block's do not. */
  lemma CountedChild(child: Group, scopes: seq<Group>, names: set<string>, at: Place, v: Valuation, fill: nat, device: Device, span: int)
    requires scopes != [] && Countable(child, names) && CountsRead(scopes[0].points, names, at.base, device, v)
    requires |scopes| == 1 ==> at.shift == 0
    requires |scopes| > 1 ==>
      forall i {:trigger scopes[|scopes| - 1].points[i]} :: 0 <= i < |scopes[|scopes| - 1].points| ==>
        scopes[|scopes| - 1].points[i].raw.name !in names
    requires Wire(child, scopes).Ok?
    ensures WiredRight(child, Wire(child, scopes).value, at, v, fill, device, span)
  {
    hide CountsRead, StrideExpression, StrideOf, FirstNamed, CountPoints;
    var top := scopes[0].points;
    if child.count.Named? {
      FirstReads(top, child.count.point, 0, names, at.base, device, v);
      if |scopes| > 1 { NotNamed(scopes[|scopes| - 1].points, child.count.point, 0); }
    }
    var counted := CountExpression(child.count, scopes);
    assert counted.Ok? && counted.value.Some?;
    StrideHolds(child, top, counted.value.value, names, at.base, device, v);
  }

  /**
   A model-length group fits exactly when whole blocks fill the model from its start on,
   and then has that many instances.
   */
  lemma BindFits(start: int, stride: int, span: int)
    requires stride > 0
    ensures forall n: nat {:trigger n * stride} :: Bind(start, stride, span) == Some(n) <==> span == start + n * stride
    ensures Bind(start, stride, span).None? ==> forall n: nat {:trigger n * stride} :: span != start + n * stride
  {
    forall n: nat ensures Bind(start, stride, span) == Some(n) <==> span == start + n * stride {
      BindsTo(start, stride, span, n);
    }
  }

  lemma BindsTo(start: int, stride: int, span: int, n: nat)
    requires stride > 0
    ensures Bind(start, stride, span) == Some(n) <==> span == start + n * stride
  {
    var x := span - start;
    var q, r := x / stride, x % stride;
    DivMod(x, stride);
    if x == n * stride { Quotient(n, stride, q, r); }
  }

  lemma DivMod(x: int, stride: int)
    requires stride > 0
    ensures x == (x / stride) * stride + x % stride && 0 <= x % stride < stride
  {
  }

  lemma Quotient(n: int, stride: int, q: int, r: int)
    requires stride > 0 && 0 <= r < stride && n * stride == q * stride + r
    ensures n == q && r == 0
  {
    assert (n - q) * stride == r;
    if n - q >= 1 { assert (n - q) * stride >= stride by { Scaled(n - q - 1, stride); } }
    if n - q <= -1 { assert (q - n) * stride >= stride by { Scaled(q - n - 1, stride); } }
  }

  lemma Scaled(d: nat, stride: int)
    requires stride > 0
    ensures (d + 1) * stride >= stride
  {
  }

  /** How many instances a block has whose definition gives no count: its one count point's value, or what fills the model. */
  ghost predicate Filled(raw: RawGroup, g: Group, base: int, v: Valuation, fill: nat, device: Device, span: int) {
    var counters := CountPoints(g.points, |g.points|);
    if |counters| == 1 then device(base + counters[0]) == fill < 0xFFFF else span == Registers(raw, v, fill)
  }

  /** A compiled model on a device: what its count points read, and how long it is. */
  ghost predicate Deployed(raw: RawGroup, counts: map<string, int>, g: Group, base: int, v: Valuation, fill: nat, device: Device, span: int) {
    && ParseGroup(raw, 0, counts) == Ok(g)
    && Consistent(v, counts)
    && FreeBelow(raw, CountNames(raw))
    && CountsRead(g.points, CountNames(raw), base, device, v)
    && Filled(raw, g, base, v, fill, device, span)
  }

  lemma FillingChild(raw: RawGroup, counts: map<string, int>, g: Group, c: nat, base: int, v: Valuation, fill: nat, device: Device, span: int)
    requires Deployed(raw, counts, g, base, v, fill, device, span)
    requires c < |g.children| && g.children[c].count.Fixed? && g.children[c].count.n <= 0
    requires TermsIn(g.children[c].terms, CountNames(raw))
    requires Wire(g.children[c], [g]).Ok? && !Wire(g.children[c], [g]).value.Unwired?
    ensures WiredRight(g.children[c], Wire(g.children[c], [g]).value, Place(base, 0), v, fill, device, span)
  {
    hide ParseGroup, CountsRead, StrideExpression, CountPoints, CountNames, Consistent, Registers, FreeBelow, Total, Bind;
    var child := g.children[c];
    var counted := CountExpression(child.count, [g]);
    assert counted.Ok?;
    if counted.value.Some? {
      StrideHolds(child, g.points, counted.value.value, CountNames(raw), base, device, v);
    } else {
      DeviceSizedIsLast(raw, counts, g, c, v, fill);
      TotalNone(v);
      BindsTo(child.start, child.size.value, span, fill);
    }
  }

  /** Every block wired into the model class repeats as often, and as far apart, as the definition says. */
  lemma TopChild(raw: RawGroup, counts: map<string, int>, g: Group, c: nat, base: int, v: Valuation, fill: nat, device: Device, span: int)
    requires Deployed(raw, counts, g, base, v, fill, device, span) && c < |g.children|
    requires Wire(g.children[c], [g]).Ok? && !Wire(g.children[c], [g]).value.Unwired?
    ensures WiredRight(g.children[c], Wire(g.children[c], [g]).value, Place(base, 0), v, fill, device, span)
    ensures SettledChild(g.children[c], CountNames(raw)) || (SettledIfSized(g.children[c], CountNames(raw)) && g.children[c].size.Some?)
  {
    hide ParseGroup, CountNames, FreeBelow, CountPoints, CountsRead, Consistent, Settled, StrideOf, StrideAt, CountAt, Filled, StrideTerms;
    TopOpens(raw, counts, g);
    var child := g.children[c];
    assert SettledIfSized(child, CountNames(raw));
    if child.count.Fixed? && child.count.n <= 0 {
      FillingChild(raw, counts, g, c, base, v, fill, device, span);
    } else {
      CountedChild(child, [g], CountNames(raw), Place(base, 0), v, fill, device, span);
    }
  }

  // ----- what an override of nothing does -----

  /** Whole blocks from the block's start on fill the model. */
  ghost predicate FillsWith(child: Group, span: int, n: nat) {
    child.size.Some? && span == child.start + n * child.size.value
  }

  /**
   A block whose count is overridden with 0 or less is emitted as if it had no count of its own. With
   one count point in its enclosing block it is sized by that register, whatever the override named;
   otherwise in the model's own block it fills the model, and elsewhere it has no instances. So it has
   the instances its count point says exactly when that register, that span or nothing says as many;
   and an override of a block's one count point is ignored.
   */
  lemma OverrideHolds(name: string, counts: map<string, int>, child: Group, scopes: seq<Group>, at: Place,
                      v: Valuation, device: Device, span: int)
    requires name in counts && counts[name] <= 0 && child.count == Overridden(Named(name), counts)
    requires scopes != [] && Wire(child, scopes).Ok? && (child.size.Some? ==> child.size.value >= 0)
    ensures var points, wiring := scopes[|scopes| - 1].points, Wire(child, scopes).value;
      var counters := CountPoints(points, |points|);
      CountAt(wiring, at, device, span) == v(name) <==>
      if |counters| == 1 then CountRead(device, at.base + at.shift + counters[0]) == v(name)
      else if wiring.Unwired? || v(name) == 0 then
        v(name) == 0 && (wiring.Unwired? || forall n: nat {:trigger FillsWith(child, span, n)} :: n > 0 ==> !FillsWith(child, span, n))
      else FillsWith(child, span, v(name))
    ensures var points := scopes[|scopes| - 1].points;
      |CountPoints(points, |points|)| == 1 && FirstNamed(points, name, 0) == Some(CountPoints(points, |points|)[0]) ==>
      CountExpression(child.count, scopes) == CountExpression(Named(name), scopes)
  {
    hide Bind, CountPoints, StrideExpression, CountRead;
    var points, wiring := scopes[|scopes| - 1].points, Wire(child, scopes).value;
    if |CountPoints(points, |points|)| != 1 && wiring.ToModelEnd? {
      forall n: nat ensures Bind(child.start, child.size.value, span) == Some(n) <==> FillsWith(child, span, n) {
        BindsTo(child.start, child.size.value, span, n);
      }
    }
  }

  /** ID, L and a uint16 N, then blocks of one register. */
  const BARE_COUNT := RawGroup("m", Fixed(1),
    [RawPoint("ID", Uint16, 1, Unscaled), RawPoint("L", Uint16, 1, Unscaled), RawPoint("N", Uint16, 1, Unscaled)],
    [RawGroup("b", Named("N"), [RawPoint("X", Uint16, 1, Unscaled)], [])])

  /** N is not of type count: told that it holds 0, which it does, the generator still gives the block every register left. */
  lemma OverrideCanFill(device: Device, v: Valuation)
    requires v("N") == device(2) == 0
    ensures ParseGroup(BARE_COUNT, 0, map["N" := 0]).Ok?
    ensures var top := ParseGroup(BARE_COUNT, 0, map["N" := 0]).value;
      |top.children| == 1 && Wire(top.children[0], [top]).Ok?
      && CountAt(Wire(top.children[0], [top]).value, Place(0, 0), device, 6) == 3 != v("N")
  {
    hide ParseGroup;
    BareParsed();
    var top := ParseGroup(BARE_COUNT, 0, map["N" := 0]).value;
    assert CountPoints(top.points, 0) == CountPoints(top.points, 1) == CountPoints(top.points, 2) == CountPoints(top.points, 3) == [];
    assert CountExpression(Fixed(0), [top]) == Ok(None);
  }

  lemma SizeOfWords(points: seq<RawPoint>, n: nat)
    requires n <= |points| && forall i :: 0 <= i < |points| ==> points[i].size == 1
    ensures PointsSize(points, n) == n
  {
    if n > 0 { SizeOfWords(points, n - 1); }
  }

  lemma BareParsed()
    ensures var top := ParseGroup(BARE_COUNT, 0, map["N" := 0]);
      && top.Ok? && top.value.points == ParsePoints(BARE_COUNT.points, 0)
      && top.value.children == [Group("b", 3, Fixed(0), ParsePoints(BARE_COUNT.groups[0].points, 3), [], Some(1), [], [])]
  {
    hide ParsePoints, PointsSize;
    var counts, block := map["N" := 0], BARE_COUNT.groups[0];
    SizeOfWords(BARE_COUNT.points, 3);
    SizeOfWords(block.points, 1);
    assert ParseSubs(block, 0, StartParsing(block, 3), 3, counts) == Ok(Parsing(4, [], Some(1), []));
    var child := ParseGroup(block, 3, counts).value;
    assert child == Group("b", 3, Fixed(0), ParsePoints(block.points, 3), [], Some(1), [], []);
    assert Collapsed(BARE_COUNT.groups, 0, child) == 1;
    var st := StartParsing(BARE_COUNT, 0);
    var next := Advance(st, Region(BARE_COUNT.groups, 0, child), 0);
    assert next == Parsing(3, [child], None, []);
    assert ParseSubs(BARE_COUNT, 1, next, 0, counts) == Ok(next);
    assert ParseSubs(BARE_COUNT, 0, st, 0, counts) == Ok(next);
  }

  // ----- the built tree -----

  /** A class emitted for a block of the tree. */
  ghost predicate ClassFor(c: Class, g: Group, top: Group, scales: map<string, int>, referenced: set<string>) {
    exists scopes: seq<Group> :: scopes != [] && scopes[0] == top && EmitGroup(g, scales, scopes, referenced) == Ok(c)
  }

  /** Below a wired block, the tree the classes build is the placed tree, instance for instance. */
  lemma {:induction false} TreeAgrees(g: Group, c: Class, scopes: seq<Group>, scales: map<string, int>, referenced: set<string>, names: set<string>,
                                      path: seq<Step>, at: Place, v: Valuation, fill: nat, device: Device, span: int)
    requires scopes != [] && EmitGroup(g, scales, scopes, referenced) == Ok(c)
    requires CountsRead(scopes[0].points, names, at.base, device, v) && Settled(g, names)
    requires forall i {:trigger g.points[i]} :: 0 <= i < |g.points| ==> g.points[i].raw.name !in names
    ensures Exists(c, path, at, device, span) <==> TreePath(g, path, v, fill)
    ensures TreePath(g, path, v, fill) ==>
      && PlaceOf(c, path, at, device, span) == Place(at.base, at.shift + InstanceOffset(g, path, v, fill))
      && ClassFor(ClassAt(c, path), NodeAt(g, path), scopes[0], scales, referenced)
    decreases |path|
  {
    hide CountsRead, EmitGroup, Wire, StrideOf, StrideAt, CountAt, Instances, Settled;
    if path != [] {
      Emits(g, scales, scopes, referenced, c);
      var k := path[0].group;
      if k < |g.children| {
        var child, group := g.children[k], c.groups[k];
        SettledHas(g, names, k);
        CountedChild(child, scopes + [g], names, at, v, fill, device, span);
        var next := at.(shift := at.shift + path[0].instance * StrideAt(group.wiring, at.base, device));
        TreeAgrees(child, group.component, scopes + [g], scales, referenced, names, path[1..], next, v, fill, device, span);
      }
    }
  }

  lemma SettledHas(g: Group, names: set<string>, k: nat)
    requires Settled(g, names) && k < |g.children|
    ensures Countable(g.children[k], names) && Settled(g.children[k], names)
    ensures forall i {:trigger g.children[k].points[i]} :: 0 <= i < |g.children[k].points| ==> g.children[k].points[i].raw.name !in names
  {
    hide Countable;
    assert SettledChild(g.children[k], names);
  }

  /** A class has its block's own children, wired in order. */
  lemma Emits(g: Group, scales: map<string, int>, scopes: seq<Group>, referenced: set<string>, c: Class)
    requires scopes != [] && EmitGroup(g, scales, scopes, referenced) == Ok(c)
    ensures |c.groups| == |g.children|
    ensures forall i {:trigger c.groups[i]} :: 0 <= i < |g.children| ==>
      && Wire(g.children[i], scopes + [g]) == Ok(c.groups[i].wiring)
      && EmitGroup(g.children[i], scales, scopes + [g], referenced) == Ok(c.groups[i].component)
  {
    hide EmitFields, BlockScales, Wire;
    ChildrenEmitted(g, |g.children|, scales, scopes + [g], referenced);
  }

  // ----- fields and their scale registers -----

  /** The `j`-th point is the last scale factor of this name. */
  ghost predicate ScalePoint(points: seq<Point>, name: string, j: nat) {
    && j < |points| && points[j].raw.kind == ScaleFactor && points[j].raw.name == name
    && forall k {:trigger points[k]} :: j < k < |points| && points[k].raw.kind == ScaleFactor ==> points[k].raw.name != name
  }

  /** Where each scale factor is, by name. */
  ghost predicate ScalesRight(points: seq<Point>, n: nat, scales: map<string, int>)
    requires n <= |points|
  {
    && (forall j {:trigger points[j]} :: 0 <= j < n && points[j].raw.kind == ScaleFactor ==> points[j].raw.name in scales)
    && forall name :: name in scales ==> exists j {:trigger points[j]} :: 0 <= j < n && ScalePoint(points[..n], name, j) && scales[name] == points[j].address
  }

  lemma {:induction false} ScalesAreRight(points: seq<Point>, n: nat)
    requires n <= |points|
    ensures ScalesRight(points, n, ScaleAddresses(points, n))
  {
    if n > 0 {
      hide ScalePoint;
      ScalesAreRight(points, n - 1);
      var now := ScaleAddresses(points, n);
      forall name | name in now
        ensures exists j {:trigger points[j]} :: 0 <= j < n && ScalePoint(points[..n], name, j) && now[name] == points[j].address
      {
        OneMoreScale(points, n, name);
      }
    }
  }

  lemma OneMoreScale(points: seq<Point>, n: nat, name: string)
    requires 0 < n <= |points| && ScalesRight(points, n - 1, ScaleAddresses(points, n - 1)) && name in ScaleAddresses(points, n)
    ensures exists j {:trigger points[j]} ::
              0 <= j < n && ScalePoint(points[..n], name, j) && ScaleAddresses(points, n)[name] == points[j].address
  {
    var rest, now, last := ScaleAddresses(points, n - 1), ScaleAddresses(points, n), points[n - 1];
    if last.raw.kind == ScaleFactor && last.raw.name == name {
      assert ScalePoint(points[..n], name, n - 1) && now[name] == points[n - 1].address;
    } else {
      assert name in rest && now[name] == rest[name];
      var j :| 0 <= j < n - 1 && ScalePoint(points[..n - 1], name, j) && rest[name] == points[j].address;
      assert points[..n - 1] == points[..n][..n - 1];
      assert ScalePoint(points[..n], name, j);
    }
  }

  lemma ScaleFound(points: seq<Point>, name: string) returns (j: nat)
    requires name in Scales(points)
    ensures ScalePoint(points, name, j) && Scales(points)[name] == points[j].address
  {
    ScalesAreRight(points, |points|);
    j :| j < |points| && ScalePoint(points[..|points|], name, j) && Scales(points)[name] == points[j].address;
    assert points[..|points|] == points;
  }

  /** Which of the first `n` points become fields. */
  function OrderOf(points: seq<Point>, n: nat, referenced: set<string>, header: bool): (order: seq<nat>)
    requires n <= |points|
    ensures forall j :: 0 <= j < |order| ==> order[j] < n
  {
    if n == 0 then []
    else
      var rest := OrderOf(points, n - 1, referenced, header);
      if !Emitted(points[n - 1].raw, referenced) || (header && Header(points[n - 1])) then rest else rest + [n - 1]
  }

  lemma {:induction false} OrderAscends(points: seq<Point>, n: nat, referenced: set<string>, header: bool)
    requires n <= |points|
    ensures Ascends(OrderOf(points, n, referenced, header))
    ensures forall i {:trigger points[i]} :: 0 <= i < n ==>
      (i in OrderOf(points, n, referenced, header) <==> Emitted(points[i].raw, referenced) && !(header && Header(points[i])))
  {
    hide Emitted, Header;
    if n > 0 { OrderAscends(points, n - 1, referenced, header); }
  }

  /** The fields are those points', in order. */
  lemma {:induction false} FieldsInOrder(points: seq<Point>, n: nat, referenced: set<string>, scales: map<string, int>, header: bool)
    requires n <= |points| && EmitFields(points, n, referenced, scales, header).Ok?
    ensures var fields, order := EmitFields(points, n, referenced, scales, header).value, OrderOf(points, n, referenced, header);
      |fields| == |order| && forall j {:trigger fields[j]} :: 0 <= j < |fields| ==> EmitPoint(points[order[j]], scales) == Ok(fields[j])
  {
    hide EmitPoint, Emitted, Header;
    if n > 0 { FieldsInOrder(points, n - 1, referenced, scales, header); }
  }

  ghost predicate Ascends(order: seq<nat>) {
    forall a, b :: 0 <= a < b < |order| ==> order[a] < order[b]
  }

  /** Points of integer types may be scaled by a point. */
  predicate ScaledByPoint(raw: RawPoint) {
    Scalable(raw.kind) && raw.scale.ByPoint?
  }

  /**
   A scale register is read at a scale factor of the point's own instance if its block
   declares one so named, and at the model's fixed block otherwise.
   */
  ghost predicate ScaleRight(name: string, address: int, own: seq<Point>, shift: int, top: seq<Point>, base: int) {
    if name in Scales(own) then exists j {:trigger own[j]} :: 0 <= j < |own| && ScalePoint(own, name, j) && address == base + shift + own[j].address
    else exists j {:trigger top[j]} :: 0 <= j < |top| && ScalePoint(top, name, j) && address == base + top[j].address
  }

  /** The field reads the point, at its own address and at its scale factor's. */
  ghost predicate Reads(f: Field, c: Class, at: Place, own: seq<Point>, i: nat, top: seq<Point>)
    requires i < |own|
  {
    && f.name == own[i].raw.name && f.width == WidthOf(own[i].raw)
    && Address(f, at) == at.base + at.shift + own[i].address
    && (f.scale.Some? <==> ScaledByPoint(own[i].raw))
    && (f.scale.Some? ==> ScaleRight(own[i].raw.scale.name, ScaleAddress(f, c.scaleInBlock, at), own, at.shift, top, at.base))
  }

  /** A class reads its block's emitted points in order, and nothing else. */
  ghost predicate ReadsBlock(c: Class, at: Place, own: seq<Point>, top: seq<Point>, referenced: set<string>, header: bool) {
    var order := OrderOf(own, |own|, referenced, header);
    |c.fields| == |order| && forall j {:trigger c.fields[j]} :: 0 <= j < |order| ==> Reads(c.fields[j], c, at, own, order[j], top)
  }

  lemma PointReads(c: Class, at: Place, own: seq<Point>, i: nat, top: seq<Point>, scales: map<string, int>, f: Field)
    requires i < |own| && EmitPoint(own[i], scales) == Ok(f)
    requires own[i].raw.scale.ByPoint? && own[i].raw.scale.name in scales ==>
      if own[i].raw.scale.name in Scales(own) then
        scales == Scales(own) && (c.scaleInBlock || at.shift == 0)
      else scales == Scales(top) && !c.scaleInBlock
    ensures Reads(f, c, at, own, i, top)
  {
    hide Scales, ScalePoint;
    if f.scale.Some? {
      var name := own[i].raw.scale.name;
      if name in Scales(own) {
        var j := ScaleFound(own, name);
      } else {
        var j := ScaleFound(top, name);
      }
    }
  }

  lemma BlockReads(c: Class, at: Place, own: seq<Point>, top: seq<Point>, scales: map<string, int>, referenced: set<string>, header: bool)
    requires EmitFields(own, |own|, referenced, scales, header) == Ok(c.fields)
    requires forall i {:trigger own[i]} :: 0 <= i < |own| && own[i].raw.scale.ByPoint? && own[i].raw.scale.name in scales ==>
      if own[i].raw.scale.name in Scales(own) then
        scales == Scales(own) && (c.scaleInBlock || at.shift == 0)
      else scales == Scales(top) && !c.scaleInBlock
    ensures ReadsBlock(c, at, own, top, referenced, header)
  {
    hide Scales, Reads, EmitPoint, EmitFields, OrderOf;
    FieldsInOrder(own, |own|, referenced, scales, header);
    var order := OrderOf(own, |own|, referenced, header);
    forall j {:trigger c.fields[j]} | 0 <= j < |order| ensures Reads(c.fields[j], c, at, own, order[j], top) {
      PointReads(c, at, own, order[j], top, scales, c.fields[j]);
    }
  }

  /** A nested class reads its own instance's points, and factors of the instance or of the fixed block. */
  lemma NestedReads(c: Class, g: Group, at: Place, top: Group, referenced: set<string>)
    requires ClassFor(c, g, top, Scales(top.points), referenced)
    ensures ReadsBlock(c, at, g.points, top.points, referenced, false)
  {
    hide Scales, ReadsBlock, EmitChildren, EmitFields;
    var factors := Scales(top.points);
    var scopes :| scopes != [] && scopes[0] == top && EmitGroup(g, factors, scopes, referenced) == Ok(c);
    var scales := BlockScales(g.points, factors, scopes).value;
    forall i {:trigger g.points[i]} | 0 <= i < |g.points| && g.points[i].raw.scale.ByPoint? && g.points[i].raw.scale.name in scales.0
      ensures if g.points[i].raw.scale.name in Scales(g.points) then
                scales.0 == Scales(g.points) && (c.scaleInBlock || at.shift == 0)
              else scales.0 == Scales(top.points) && !c.scaleInBlock
    {
      assert g.points[i] in g.points;
    }
    BlockReads(c, at, g.points, top.points, scales.0, referenced, false);
  }

  // ----- the main theorem -----

  /** The `j`-th point is the last scale factor of this name. */
  ghost predicate LastScale(raws: seq<RawPoint>, name: string, j: nat) {
    && j < |raws| && raws[j].kind == ScaleFactor && raws[j].name == name
    && forall k {:trigger raws[k]} :: j < k < |raws| && raws[k].kind == ScaleFactor ==> raws[k].name != name
  }

  ghost predicate DeclaresScale(raws: seq<RawPoint>, name: string) {
    exists j {:trigger raws[j]} :: 0 <= j < |raws| && raws[j].kind == ScaleFactor && raws[j].name == name
  }

  /** The field reads the `i`-th of points laid out from `start` on, scaled by its own block's factor or else the model's. */
  ghost predicate FieldAt(f: Field, inBlock: bool, at: Place, raws: seq<RawPoint>, start: int, i: nat, top: seq<RawPoint>, base: int)
    requires i < |raws|
  {
    && f.name == raws[i].name && f.width == WidthOf(raws[i])
    && Address(f, at) == start + PointsSize(raws, i)
    && (f.scale.Some? <==> ScaledByPoint(raws[i]))
    && (f.scale.Some? ==>
        var name, address := raws[i].scale.name, ScaleAddress(f, inBlock, at);
        if DeclaresScale(raws, name) then
          exists j {:trigger raws[j]} :: 0 <= j < |raws| && LastScale(raws, name, j) && address == start + PointsSize(raws, j)
        else exists j {:trigger top[j]} :: 0 <= j < |top| && LastScale(top, name, j) && address == base + PointsSize(top, j))
  }

  /** The numbers of a block's points that are fields, in ascending order. */
  ghost predicate Lists(order: seq<nat>, raws: seq<RawPoint>, model: RawGroup, header: bool) {
    && Ascends(order)
    && forall i: nat :: i in order <==> i < |raws| && Shown(raws[i], model, header)
  }

  /** The class's fields are those of the points of a block laid out from `start` on, one for one and in order. */
  ghost predicate ReadsInSequence(c: Class, at: Place, raws: seq<RawPoint>, start: int, model: RawGroup, base: int, header: bool) {
    exists order :: Lists(order, raws, model, header) && FieldsAt(c, at, raws, start, order, model, base)
  }

  ghost predicate FieldsAt(c: Class, at: Place, raws: seq<RawPoint>, start: int, order: seq<nat>, model: RawGroup, base: int) {
    && |order| == |c.fields|
    && forall j {:trigger c.fields[j]} :: 0 <= j < |order| ==>
         order[j] < |raws| && FieldAt(c.fields[j], c.scaleInBlock, at, raws, start, order[j], model.points, base)
  }

  lemma ScaleNames(raws: seq<RawPoint>, start: int, name: string)
    ensures DeclaresScale(raws, name) <==> name in Scales(ParsePoints(raws, start))
  {
    var points := ParsePoints(raws, start);
    ScalesAreRight(points, |points|);
    if name in Scales(points) {
      var j := ScaleFound(points, name);
      assert raws[j].kind == ScaleFactor && raws[j].name == name;
    }
    if DeclaresScale(raws, name) {
      var j :| 0 <= j < |raws| && raws[j].kind == ScaleFactor && raws[j].name == name;
      assert points[j].raw == raws[j];
    }
  }

  lemma ScaleMoves(raws: seq<RawPoint>, start: int, name: string, j: nat)
    requires ScalePoint(ParsePoints(raws, start), name, j)
    ensures LastScale(raws, name, j)
  {
    var points := ParsePoints(raws, start);
    forall k {:trigger raws[k]} | j < k < |raws| && raws[k].kind == ScaleFactor ensures raws[k].name != name {
      assert points[k].raw == raws[k];
    }
    assert points[j].raw == raws[j];
  }

  lemma FieldInSequence(f: Field, c: Class, at: Place, raws: seq<RawPoint>, s: int, i: nat, top: seq<RawPoint>)
    requires i < |raws| && Reads(f, c, at, ParsePoints(raws, s), i, ParsePoints(top, 0))
    ensures FieldAt(f, c.scaleInBlock, at, raws, at.base + at.shift + s, i, top, at.base)
  {
    hide Scales, ScalePoint, PointsSize;
    var own, fixed := ParsePoints(raws, s), ParsePoints(top, 0);
    assert own[i].raw == raws[i];
    if f.scale.Some? {
      var name, address := raws[i].scale.name, ScaleAddress(f, c.scaleInBlock, at);
      ScaleNames(raws, s, name);
      if DeclaresScale(raws, name) {
        var j :| 0 <= j < |own| && ScalePoint(own, name, j) && address == at.base + at.shift + own[j].address;
        ScaleMoves(raws, s, name, j);
        assert LastScale(raws, name, j) && address == at.base + at.shift + s + PointsSize(raws, j);
        assert raws[j].name == name;
      } else {
        var j :| 0 <= j < |fixed| && ScalePoint(fixed, name, j) && address == at.base + fixed[j].address;
        ScaleMoves(top, 0, name, j);
        assert LastScale(top, name, j) && address == at.base + PointsSize(top, j);
        assert top[j].name == name;
      }
    }
  }

  lemma BlockInSequence(c: Class, at: Place, raws: seq<RawPoint>, s: int, model: RawGroup, referenced: set<string>, header: bool)
    requires ReadsBlock(c, at, ParsePoints(raws, s), ParsePoints(model.points, 0), referenced, header)
    requires forall name :: name in referenced <==> ScalesSome(model, name)
    ensures ReadsInSequence(c, at, raws, at.base + at.shift + s, model, at.base, header)
  {
    hide Reads, FieldAt, PointsSize, OrderOf, ScalesSome;
    var own := ParsePoints(raws, s);
    var order := OrderOf(own, |own|, referenced, header);
    OrderAscends(own, |own|, referenced, header);
    forall i: nat ensures i in order <==> i < |raws| && Shown(raws[i], model, header) {
      if i < |own| { assert own[i].raw == raws[i]; }
    }
    forall j {:trigger c.fields[j]} | 0 <= j < |order|
      ensures FieldAt(c.fields[j], c.scaleInBlock, at, raws, at.base + at.shift + s, order[j], model.points, at.base)
    {
      FieldInSequence(c.fields[j], c, at, raws, s, order[j], model.points);
    }
    assert Lists(order, raws, model, header) && FieldsAt(c, at, raws, at.base + at.shift + s, order, model, at.base);
  }

  /** The nested blocks on the way are wired into the model class, not left for its user to size. */
  ghost predicate Wired(g: Group, model: Class, path: seq<Step>) {
    path == [] || (path[0].group < |model.groups| && |model.groups| == |g.children| && !model.groups[path[0].group].wiring.Unwired?)
  }

  /**
   The tree the emitted classes build is the placed tree: the same instances exist,
   and each reads the points of its block where the placed tree has them.
   */
  lemma BuiltTreeIsPlaced(raw: RawGroup, counts: map<string, int>, g: Group, model: Class, path: seq<Step>, base: int,
                          v: Valuation, fill: nat, device: Device, span: int)
    requires Deployed(raw, counts, g, base, v, fill, device, span) && EmitModel(raw, counts) == Ok(model) && Wired(g, model, path)
    ensures Exists(model, path, Place(base, 0), device, span) <==> TreePath(g, path, v, fill)
    ensures TreePath(g, path, v, fill) ==>
      && PlaceOf(model, path, Place(base, 0), device, span) == Place(base, InstanceOffset(g, path, v, fill))
      && ReadsBlock(ClassAt(model, path), Place(base, InstanceOffset(g, path, v, fill)), NodeAt(g, path).points, g.points,
                    Referenced(g), path == [])
  {
    hide ParseGroup, CountsRead, EmitGroup, Wire, StrideOf, StrideAt, CountAt, Instances, Settled, Filled, EmitFields,
         Referenced, Scales, ReadsBlock, CountNames, FreeBelow, Consistent, ClassFor;
    var at, scales, names := Place(base, 0), Scales(g.points), CountNames(raw);
    ChildrenEmitted(g, |g.children|, scales, [g], Referenced(g));
    if path == [] {
      BlockReads(model, at, g.points, g.points, scales, Referenced(g), true);
    } else {
      var k := path[0].group;
      var child, group := g.children[k], model.groups[k];
      TopChild(raw, counts, g, k, base, v, fill, device, span);
      assert Settled(child, names);
      var next := at.(shift := path[0].instance * StrideAt(group.wiring, base, device));
      TreeAgrees(child, group.component, [g], scales, Referenced(g), names, path[1..], next, v, fill, device, span);
      if TreePath(g, path, v, fill) {
        NestedReads(ClassAt(model, path), NodeAt(g, path), Place(base, InstanceOffset(g, path, v, fill)), g, Referenced(g));
      }
    }
  }

  lemma {:induction false} SettledStrides(raw: RawGroup, g: Group, names: set<string>, path: seq<Step>)
    requires Settled(g, names)
    ensures Strided(raw, g, path)
    decreases |path|
  {
    hide ChildFor;
    if path != [] && path[0].group < |raw.groups| {
      var (c, a) := ChildFor(g.children, 0, path[0].group);
      if c < |g.children| {
        assert SettledChild(g.children[c], names);
        SettledStrides(raw.groups[path[0].group], g.children[c], names, path[1..]);
      }
    }
  }

  /** The block a definition's path starts with is wired into the model class. */
  ghost predicate WiredInto(g: Group, model: Class, path: seq<Step>) {
    path == [] ||
    var c := ChildFor(g.children, 0, path[0].group).0;
    c < |model.groups| == |g.children| && !model.groups[c].wiring.Unwired?
  }

  /** The placed tree's instance of a path, and where it puts it. */
  lemma PlacedByDefinition(raw: RawGroup, counts: map<string, int>, g: Group, model: Class, path: seq<Step>, base: int,
                           v: Valuation, fill: nat, device: Device, span: int) returns (shift: int, start: int)
    requires Deployed(raw, counts, g, base, v, fill, device, span) && EmitModel(raw, counts) == Ok(model)
    requires ValidPath(raw, path, v, fill) && WiredInto(g, model, path)
    ensures var there := Translated(raw, g, path, v, fill);
      && (there == [] <==> path == []) && Wired(g, model, there) && TreePath(g, there, v, fill)
      && shift == InstanceOffset(g, there, v, fill) && shift + start == OffsetOf(raw, path, v, fill)
      && NodeAt(g, there).points == ParsePoints(GroupAt(raw, path).points, start)
  {
    hide CountsRead, EmitModel, CountNames, FreeBelow, Filled, Strided, ParsePoints, OffsetOf, InstanceOffset,
         TreePath, NodeAt, GroupAt, ParseGroup, ChildFor, Consistent, ValidPath;
    TopStrided(raw, counts, g, model, path, base, v, fill, device, span);
    InstancesArePlaced(raw, raw, 0, counts, g, g, path, v, fill);
    TopStarts(raw, counts, g);
    var there := Translated(raw, g, path, v, fill);
    shift, start := InstanceOffset(g, there, v, fill), NodeAt(g, there).start;
    if path != [] {
      assert path[0].group < |raw.groups| by { FirstStep(raw, path, v, fill); }
    }
  }

  lemma TopStarts(raw: RawGroup, counts: map<string, int>, g: Group)
    requires ParseGroup(raw, 0, counts) == Ok(g)
    ensures g.start == 0
  {
  }

  lemma TopPoints(raw: RawGroup, counts: map<string, int>, g: Group)
    requires ParseGroup(raw, 0, counts) == Ok(g)
    ensures g.points == ParsePoints(raw.points, 0)
  {
    hide ParsePoints, ParseSubs;
  }

  /**
   Compilation preserves layout: every instance of the definition exists in the tree
   its classes build on the device, at the shift its place in the sequence says, and
   its class reads exactly its emitted points there, each scaled by the factor its own
   block declares or else by the model's.
   */
  lemma CompiledLayoutIsSequential(raw: RawGroup, counts: map<string, int>, g: Group, model: Class, path: seq<Step>, base: int,
                                   v: Valuation, fill: nat, device: Device, span: int)
    requires Deployed(raw, counts, g, base, v, fill, device, span) && EmitModel(raw, counts) == Ok(model)
    requires ValidPath(raw, path, v, fill) && (path == [] || Wires(raw, counts, path[0].group))
    ensures var there := Translated(raw, g, path, v, fill);
      && Exists(model, there, Place(base, 0), device, span)
      && var at := PlaceOf(model, there, Place(base, 0), device, span);
      && at.base == base
      && ReadsInSequence(ClassAt(model, there), at, GroupAt(raw, path).points, base + OffsetOf(raw, path, v, fill),
                         raw, base, path == [])
  {
    hide CountsRead, EmitModel, ReadsBlock, ReadsInSequence, CountNames, FreeBelow, Consistent, Filled, Strided, ParsePoints,
         OffsetOf, InstanceOffset, ValidPath, TreePath, NodeAt, GroupAt, ClassAt, ParseGroup, ChildFor, Referenced, ScalesSome, Exists, PlaceOf,
         Translated, WiredInto, Wired, Wires;
    PathWired(raw, counts, g, model, path, v, fill);
    var there := Translated(raw, g, path, v, fill);
    var shift, start := PlacedByDefinition(raw, counts, g, model, path, base, v, fill, device, span);
    BuiltTreeIsPlaced(raw, counts, g, model, there, base, v, fill, device, span);
    TopPoints(raw, counts, g);
    forall name ensures name in Referenced(g) <==> ScalesSome(raw, name) { ReferencedIs(raw, 0, counts, g, g, name); }
    BlockInSequence(ClassAt(model, there), Place(base, shift), GroupAt(raw, path).points, start, raw, Referenced(g), path == []);
  }

  lemma PathWired(raw: RawGroup, counts: map<string, int>, g: Group, model: Class, path: seq<Step>, v: Valuation, fill: nat)
    requires ParseGroup(raw, 0, counts) == Ok(g) && EmitModel(raw, counts) == Ok(model) && ValidPath(raw, path, v, fill)
    requires path == [] || Wires(raw, counts, path[0].group)
    ensures WiredInto(g, model, path)
  {
    hide ParseGroup, EmitModel, ChildFor, Wires;
    if path != [] { WiredIff(raw, counts, g, model, path[0].group); }
  }

  lemma TopStrided(raw: RawGroup, counts: map<string, int>, g: Group, model: Class, path: seq<Step>, base: int,
                   v: Valuation, fill: nat, device: Device, span: int)
    requires Deployed(raw, counts, g, base, v, fill, device, span) && EmitModel(raw, counts) == Ok(model)
    requires WiredInto(g, model, path)
    ensures Strided(raw, g, path)
  {
    hide CountsRead, EmitGroup, Wire, EmitFields, ParseGroup, CountNames, FreeBelow, Consistent, Filled, ChildFor, Settled,
         Referenced, Scales;
    if path != [] && path[0].group < |raw.groups| {
      ChildrenEmitted(g, |g.children|, Scales(g.points), [g], Referenced(g));
      var c := ChildFor(g.children, 0, path[0].group).0;
      TopChild(raw, counts, g, c, base, v, fill, device, span);
      assert Settled(g.children[c], CountNames(raw));
      SettledStrides(raw.groups[path[0].group], g.children[c], CountNames(raw), path[1..]);
    }
  }

  /** And the classes build nothing else: every instance they place is one of the definition's. */
  lemma NothingElseIsBuilt(raw: RawGroup, counts: map<string, int>, g: Group, model: Class, there: seq<Step>, base: int,
                           v: Valuation, fill: nat, device: Device, span: int) returns (path: seq<Step>)
    requires Deployed(raw, counts, g, base, v, fill, device, span) && EmitModel(raw, counts) == Ok(model)
    requires Exists(model, there, Place(base, 0), device, span)
    ensures ValidPath(raw, path, v, fill) && Translated(raw, g, path, v, fill) == there
  {
    hide CountsRead, EmitModel, CountNames, FreeBelow, Filled, Exists, Wired, ParseGroup, Consistent;
    ExistsIsWired(raw, counts, g, model, there, base, device, span);
    BuiltTreeIsPlaced(raw, counts, g, model, there, base, v, fill, device, span);
    path := PlacedAreInstances(raw, raw, 0, counts, g, g, there, v, fill);
  }

  lemma ExistsIsWired(raw: RawGroup, counts: map<string, int>, g: Group, model: Class, there: seq<Step>, base: int, device: Device, span: int)
    requires ParseGroup(raw, 0, counts) == Ok(g) && EmitModel(raw, counts) == Ok(model)
    requires Exists(model, there, Place(base, 0), device, span)
    ensures Wired(g, model, there)
  {
    hide ParseGroup, EmitGroup, Wire, EmitFields, Scales, Referenced, CountAt, StrideAt;
    ChildrenEmitted(g, |g.children|, Scales(g.points), [g], Referenced(g));
  }

  // ----- count registers -----

  lemma {:induction false} FirstIs(points: seq<Point>, name: string, i: nat) returns (j: nat)
    requires i <= |points| && FirstNamed(points, name, i).Some?
    ensures i <= j < |points| && points[j].raw.name == name && points[j].address == FirstNamed(points, name, i).value
    decreases |points| - i
  {
    if points[i].raw.name == name { j := i; } else { j := FirstIs(points, name, i + 1); }
  }

  lemma {:induction false} NodeSettled(g: Group, names: set<string>, path: seq<Step>, v: Valuation, fill: nat)
    requires SettledChild(g, names) && TreePath(g, path, v, fill)
    ensures SettledChild(NodeAt(g, path), names)
    decreases |path|
  {
    hide Countable, Instances;
    if path != [] {
      assert SettledChild(g.children[path[0].group], names);
      NodeSettled(g.children[path[0].group], names, path[1..], v, fill);
    }
  }

  /**
   However deep a block sits, the count its nested blocks repeat by is read from the
   model's fixed block: the register does not move with the instance.
   */
  lemma CountStaysPut(c: Class, g: Group, top: Group, raws: seq<RawPoint>, scales: map<string, int>, referenced: set<string>,
                      names: set<string>, at: Place, k: nat)
    requires ClassFor(c, g, top, scales, referenced) && SettledChild(g, names) && top.points == ParsePoints(raws, 0)
    requires k < |c.groups| && c.groups[k].wiring.Repeating? && c.groups[k].wiring.count.Register?
    ensures k < |g.children| && g.children[k].count.Named?
    ensures exists i {:trigger raws[i]} ::
              0 <= i < |raws| && raws[i].name == g.children[k].count.point &&
              CountAddress(c.groups[k].wiring.count, at) == at.base + PointsSize(raws, i)
  {
    hide EmitGroup, ParsePoints, Countable, StrideExpression, PointsSize, CountPoints, FirstNamed;
    var scopes :| scopes != [] && scopes[0] == top && EmitGroup(g, scales, scopes, referenced) == Ok(c);
    Emits(g, scales, scopes, referenced, c);
    var child := g.children[k];
    assert SettledChild(child, names);
    CountableCount(child, names);
    if child.count.Named? {
      NotNamed(g.points, child.count.point, 0);
      assert (scopes + [g])[0] == top && (scopes + [g])[|scopes|] == g;
      var i := FirstIs(top.points, child.count.point, 0);
      assert raws[i] == top.points[i].raw;
    }
  }

  lemma CountableCount(child: Group, names: set<string>)
    requires Countable(child, names)
    ensures (child.count.Fixed? && child.count.n > 0) || (child.count.Named? && child.count.point in names)
  {
  }

  // ----- the properties that name collapsed siblings -----

  lemma RegionAliases(groups: seq<RawGroup>, f: nat, child: Group, a: nat)
    requires f < |groups| && child.aliases == [] && a < |Region(groups, f, child).aliases|
    ensures f + a < |groups| && Region(groups, f, child).aliases[a] == groups[f + a].name
    ensures a < Multiplicity(Region(groups, f, child))
  {
    hide SameShaped;
  }

  /**
   At any depth: the property named after the `a`-th of some collapsed siblings indexes the repeated
   block by `a`; that is where the sibling starts exactly when it is the first, or
   siblings are single instances, or they occupy nothing.
   */
  lemma AliasNamesItsSibling(raw: RawGroup, start: int, counts: map<string, int>, g: Group, c: nat, a: nat,
                             v: Valuation, fill: nat)
    requires ParseGroup(raw, start, counts) == Ok(g) && Consistent(v, counts)
    requires c < |g.children| && a < |g.children[c].aliases| && g.children[c].size.Some?
    ensures FirstOf(g.children, c) + a < |raw.groups|
    ensures g.children[c].aliases[a] == raw.groups[FirstOf(g.children, c) + a].name
    ensures var sub := raw.groups[FirstOf(g.children, c) + a];
      g.children[c].start + a * StrideOf(g.children[c], v) == SubStart(raw, FirstOf(g.children, c) + a, start, v, fill)
      <==> a == 0 || Instances(sub.count, v, fill) == 1 || Registers(sub, v, fill) == 0
  {
    hide Shape, Registers, Instances, Total, ShapedAlike, SubStart, ParseGroup, FirstOf, Region, Multiplicity, Consistent;
    var f, child := FirstOf(g.children, c), g.children[c];
    var child0 := ParsedChild(raw, start, counts, g, c, v, fill);
    RegionAliases(raw.groups, f, child0, a);
    ChildIsRegion(raw, f, child, child0, a);
    SiblingStarts(raw, raw, f, a, start, v, fill);
    var sub := raw.groups[f + a];
    OneApart(a, Instances(sub.count, v, fill), Registers(sub, v, fill));
  }

  lemma OneApart(a: nat, n: nat, r: nat)
    ensures a * r == a * (n * r) <==> a == 0 || n == 1 || r == 0
  {
    if a != 0 && r != 0 {
      if n != 1 {
        if n == 0 { Positive(a, r); } else { assert a * (n * r) == a * r + a * ((n - 1) * r); Positive(n - 1, r); Positive(a, (n - 1) * r); }
      }
    }
  }

  lemma Positive(a: nat, b: nat)
    requires a > 0 && b > 0
    ensures a * b > 0
  {
  }
}
