/**
 Narrowing a component to the fields a device serves
 (`restrict_fields` in src/modbus_connection/model/component.py).

 Everything is worked out in declared coordinates, the ones the stored ranges
 live in; the whole block is then moved by `base_offset`.
 */
module Narrowing {
  import opened Wrappers
  import opened Ranges
  import opened Carving
  import opened Merging
  import opened Planning
  import opened Reading

  /** A register or bit field as it is declared on a component class. */
  datatype FieldDecl = FieldDecl(
    name: string, address: int, count: nat, stride: int,
    scaleRegister: Option<int>, scaleRegisterStride: int, space: Space)

  /** The field in declared coordinates for the `index`-th unit of a strided layout. */
  function Declared(f: FieldDecl, index: int): ResolvedField {
    ResolvedField(f.name, f.address + f.stride * (index - 1), f.count,
                  if f.scaleRegister.Some? then Some(f.scaleRegister.value + f.scaleRegisterStride * (index - 1)) else None,
                  f.space)
  }

  /** A whole block moved, scale registers included: a component at instance offset 0. */
  function Move(f: ResolvedField, baseOffset: int): ResolvedField {
    f.(address := f.address + baseOffset,
       scaleAddress := if f.scaleAddress.Some? then Some(f.scaleAddress.value + baseOffset) else None)
  }

  function DeclaredAll(fields: seq<FieldDecl>, index: int): (t: seq<ResolvedField>)
    ensures |t| == |fields| && forall i :: 0 <= i < |t| ==> t[i] == Declared(fields[i], index)
  {
    if fields == [] then [] else [Declared(fields[0], index)] + DeclaredAll(fields[1..], index)
  }

  function MoveAll(fields: seq<ResolvedField>, baseOffset: int): (t: seq<ResolvedField>)
    ensures |t| == |fields| && forall i :: 0 <= i < |t| ==> t[i] == Move(fields[i], baseOffset)
  {
    if fields == [] then [] else [Move(fields[0], baseOffset)] + MoveAll(fields[1..], baseOffset)
  }

  function Kept(fields: seq<FieldDecl>, keep: set<string>): seq<FieldDecl> {
    if fields == [] then []
    else if fields[0].name in keep then [fields[0]] + Kept(fields[1..], keep)
    else Kept(fields[1..], keep)
  }

  function Dropped(fields: seq<FieldDecl>, keep: set<string>): seq<FieldDecl> {
    if fields == [] then []
    else if fields[0].name in keep then Dropped(fields[1..], keep)
    else [fields[0]] + Dropped(fields[1..], keep)
  }

  /** The addresses of a span. */
  function Addresses(s: Range): (t: set<int>)
    ensures forall x :: x in t <==> s.Has(x)
    decreases s.high - s.low
  {
    if s.high < s.low then {} else {s.low} + Addresses(Range(s.low + 1, s.high))
  }

  function AddressesOf(spans: seq<Range>): (t: set<int>)
    ensures forall x :: x in t <==> Covers(spans, x)
  {
    if spans == [] then {}
    else
      assert spans == [spans[0]] + spans[1..];
      assert forall r :: r in spans <==> r == spans[0] || r in spans[1..];
      Addresses(spans[0]) + AddressesOf(spans[1..])
  }

  /** The value registers, scale registers left out, of the fields of one space. */
  function ValueSpans(fields: seq<ResolvedField>, space: Space): seq<Range> {
    if fields == [] then []
    else if fields[0].space == space then [fields[0].Span()] + ValueSpans(fields[1..], space)
    else ValueSpans(fields[1..], space)
  }

  /** The addresses dropped fields' values occupy in one space, less what a kept field proves the device serves. */
  function Excluded(kept: seq<ResolvedField>, dropped: seq<ResolvedField>, space: Space): set<int> {
    AddressesOf(ValueSpans(dropped, space)) - AddressesOf(SpansIn(kept, space))
  }

  /** The new ranges of one space (`_reshaped_ranges`). */
  function Reshaped(stated: Option<seq<Range>>, kept: seq<ResolvedField>, dropped: seq<ResolvedField>, space: Space,
                    maxGap: int, maxSpan: int): Result<Option<seq<Range>>, PlanError> {
    var excluded := Excluded(kept, dropped, space);
    if excluded == {} then Ok(stated)
    else if stated.Some? then Ok(Some(RangesExcluding(stated.value, excluded)))
    else if SpansIn(kept, space) == [] then Ok(None)
    else
      match Planned(SpansIn(kept, space), None, maxGap, maxSpan)
      case Err(e) => Err(e)
      case Ok(blocks) => Ok(Some(RangesExcluding(blocks, excluded)))
  }

  datatype RestrictError = HasRepeatingGroups | UnknownField | NoRanges

  /** The part of a component that narrowing changes. */
  datatype Shape = Shape(fields: seq<FieldDecl>, stated: map<Space, Option<seq<Range>>>, claimed: set<Space>)

  function StatedIn(shape: Shape, space: Space): Option<seq<Range>> {
    if space in shape.stated then shape.stated[space] else None
  }

  /** The settings narrowing leaves alone. */
  datatype Settings = Settings(registerSpace: Space, index: int, baseOffset: int, maxGap: int, maxSpan: int)

  /** One turn of the loop over spaces: reshape its ranges, and mark ranges synthesised from reads as a claim. */
  function ReshapeOne(shape: Shape, settings: Settings, keep: set<string>, space: Space): Result<Shape, PlanError> {
    var kept, dropped := DeclaredAll(Kept(shape.fields, keep), settings.index), DeclaredAll(Dropped(shape.fields, keep), settings.index);
    match Reshaped(StatedIn(shape, space), kept, dropped, space, settings.maxGap, settings.maxSpan)
    case Err(e) => Err(e)
    case Ok(ranges) =>
      Ok(shape.(stated := shape.stated[space := ranges],
                claimed := if StatedIn(shape, space).None? && ranges.Some? then shape.claimed + {space} else shape.claimed))
  }

  function ReshapeEach(shape: Shape, settings: Settings, keep: set<string>, spaces: seq<Space>, n: nat)
    : Result<Shape, PlanError>
    requires n <= |spaces|
  {
    if n == 0 then Ok(shape)
    else
      var before := ReshapeEach(shape, settings, keep, spaces, n - 1);
      if before.Err? then before else ReshapeOne(before.value, settings, keep, spaces[n - 1])
  }

  function NamesOf(fields: seq<FieldDecl>): set<string> {
    set f | f in fields :: f.name
  }

  function Narrowed(shape: Shape, settings: Settings, keep: set<string>): Result<Shape, PlanError> {
    var reshaped := ReshapeEach(shape, settings, keep, [settings.registerSpace, Coil, Discrete], 3);
    if reshaped.Err? then reshaped else Ok(reshaped.value.(fields := Kept(shape.fields, keep)))
  }

  /** The plan a component at instance offset 0 builds for one space. */
  function PlanIn(shape: Shape, settings: Settings, space: Space): Result<seq<Range>, PlanError> {
    Planned(SpansIn(MoveAll(DeclaredAll(shape.fields, settings.index), settings.baseOffset), space),
            ShiftRanges(StatedIn(shape, space), settings.baseOffset), settings.maxGap, settings.maxSpan)
  }

  class Component<V> {
    const settings: Settings
    const hasGroups: bool
    var fields: seq<FieldDecl>
    var stated: map<Space, Option<seq<Range>>>
    var claimed: set<Space>
    var values: map<string, V>
    var plan: Option<map<Space, seq<Range>>>

    constructor (settings: Settings, hasGroups: bool, fields: seq<FieldDecl>, stated: map<Space, Option<seq<Range>>>)
      ensures this.settings == settings && this.hasGroups == hasGroups
      ensures CurrentShape() == Shape(fields, stated, {}) && values == map[] && plan == None
    {
      this.settings, this.hasGroups := settings, hasGroups;
      this.fields, this.stated, claimed := fields, stated, {};
      values, plan := map[], None;
    }

    function CurrentShape(): Shape
      reads this
    {
      Shape(fields, stated, claimed)
    }

    /** The loop body: reshape the ranges of one space, or leave everything as it is. */
    method ReshapeSpace(names: set<string>, space: Space) returns (ok: bool)
      modifies this`stated, this`claimed
      ensures ok <==> ReshapeOne(old(CurrentShape()), settings, names, space).Ok?
      ensures ok ==> ReshapeOne(old(CurrentShape()), settings, names, space) == Ok(CurrentShape())
      ensures !ok ==> CurrentShape() == old(CurrentShape())
    {
      var kept, dropped := Kept(fields, names), Dropped(fields, names);
      var declared := StatedIn(CurrentShape(), space);
      var reshaped := Reshaped(declared, DeclaredAll(kept, settings.index), DeclaredAll(dropped, settings.index), space,
                               settings.maxGap, settings.maxSpan);
      if reshaped.Err? {
        return false;
      }
      stated := stated[space := reshaped.value];
      if declared.None? && reshaped.value.Some? {
        claimed := claimed + {space};
      }
      ok := true;
    }

    /**
     Keep only the named fields and reshape the readable ranges around the
     rest. A refusal leaves the component as it was, except that the spaces
     reshaped before one without a plan keep their new ranges.
     */
    method RestrictFields(names: set<string>) returns (r: Result<(), RestrictError>)
      modifies this
      ensures r == RestrictOutcome(old(CurrentShape()), settings, hasGroups, names)
      ensures r == Err(HasRepeatingGroups) <==> hasGroups
      ensures r == Err(UnknownField) <==>
        !hasGroups && exists name :: name in names && forall f :: f in old(fields) ==> f.name != name
      ensures r == Err(NoRanges) ==> Narrowed(old(CurrentShape()), settings, names).Err?
      ensures r.Ok? ==> Narrowed(old(CurrentShape()), settings, names) == Ok(CurrentShape())
      ensures r.Ok? ==> plan == None && values == old(values) - NamesOf(Dropped(old(fields), names))
      ensures r.Ok? ==> forall f :: f in fields <==> f in old(fields) && f.name in names
      ensures r.Ok? ==> forall f :: f in old(fields) && f.name !in names ==> f.name !in values
      ensures r.Ok? ==> forall name :: name in names && name in old(values) ==> name in values && values[name] == old(values)[name]
      ensures r.Err? ==> fields == old(fields) && values == old(values) && plan == old(plan)
      ensures r.Err? && !r.error.NoRanges? ==> CurrentShape() == old(CurrentShape())
    {
      hide ReshapeOne, Kept, Dropped;
      forall f { KeptMembers(fields, names, f); }
      if hasGroups {
        return Err(HasRepeatingGroups);
      }
      var unknown := names - NamesOf(fields);
      if unknown != {} {
        return Err(UnknownField);
      }
      assert names <= NamesOf(fields) by {
        forall name | name in names ensures name in NamesOf(fields) { assert name !in unknown; }
      }
      var spaces := [settings.registerSpace, Coil, Discrete];
      var ok := ReshapeSpaces(names, spaces);
      assert ok <==> ReshapeEach(old(CurrentShape()), settings, names, spaces, 3).Ok?;
      if !ok {
        return Err(NoRanges);
      }
      var kept, dropped := Kept(fields, names), Dropped(fields, names);
      fields := kept;
      values := values - NamesOf(dropped);
      plan := None;
      r := Ok(());
    }

    /** The loop over spaces. */
    method ReshapeSpaces(names: set<string>, spaces: seq<Space>) returns (ok: bool)
      modifies this`stated, this`claimed
      ensures ok <==> ReshapeEach(old(CurrentShape()), settings, names, spaces, |spaces|).Ok?
      ensures ok ==> ReshapeEach(old(CurrentShape()), settings, names, spaces, |spaces|) == Ok(CurrentShape())
    {
      hide ReshapeOne;
      for i := 0 to |spaces|
        invariant ReshapeEach(old(CurrentShape()), settings, names, spaces, i) == Ok(CurrentShape())
      {
        var reshaped := ReshapeSpace(names, spaces[i]);
        if !reshaped {
          ReshapeFails(old(CurrentShape()), settings, names, spaces, i + 1, |spaces|);
          return false;
        }
      }
      ok := true;
    }
  }

  /** What `restrict_fields` raises, if anything. */
  function RestrictOutcome(shape: Shape, settings: Settings, hasGroups: bool, names: set<string>): Result<(), RestrictError> {
    if hasGroups then Err(HasRepeatingGroups)
    else if !(names <= NamesOf(shape.fields)) then Err(UnknownField)
    else if Narrowed(shape, settings, names).Err? then Err(NoRanges)
    else Ok(())
  }

  lemma {:induction false} ReshapeFails(shape: Shape, settings: Settings, keep: set<string>, spaces: seq<Space>, i: nat, n: nat)
    requires i <= n <= |spaces| && ReshapeEach(shape, settings, keep, spaces, i).Err?
    ensures ReshapeEach(shape, settings, keep, spaces, n).Err?
    decreases n
  {
    hide ReshapeOne;
    if i < n { ReshapeFails(shape, settings, keep, spaces, i, n - 1); }
  }

  // ----- narrowing one space, in declared coordinates -----

  /** The blocks the kept fields alone are read in share an address. */
  ghost predicate BlocksOverlap(spans: seq<Range>, maxGap: int, maxSpan: int) {
    && Planned(spans, None, maxGap, maxSpan).Ok?
    && !Disjoint(Planned(spans, None, maxGap, maxSpan).value)
  }

  /** The ranges are synthesised from the kept fields' own reads. */
  predicate Synthesised(stated: Option<seq<Range>>, kept: seq<ResolvedField>, dropped: seq<ResolvedField>, space: Space) {
    stated.None? && Excluded(kept, dropped, space) != {} && SpansIn(kept, space) != []
  }

  /** The full layout could be planned, and keeps what it needs when fields go. */
  ghost predicate Narrowable(spans: seq<Range>, stated: Option<seq<Range>>, maxGap: int, maxSpan: int) {
    AllUpright(spans) && 0 <= maxGap && Accepted(spans, stated, maxSpan)
  }

  /** A run holds a whole span when nothing in the span is excluded. */
  lemma SpanSurvives(s: Range, ranges: seq<Range>, excluded: set<int>)
    requires s.Upright() && AllUpright(ranges)
    requires (exists r :: r in ranges && s.Within(r)) && forall x :: s.Has(x) ==> x !in excluded
    ensures exists r :: r in RangesExcluding(ranges, excluded) && s.Within(r)
  {
    hide RangesExcluding;
    ExcludingMeaning(ranges, excluded);
    var r :| r in ranges && s.Within(r);
    assert r.Has(s.low) && r.Has(s.high);
    assert SameRun(ranges, s.low, s.high) && Served(excluded, s.low, s.high);
    assert SameRun(RangesExcluding(ranges, excluded), s.low, s.high);
    var q :| q in RangesExcluding(ranges, excluded) && q.Has(s.low) && q.Has(s.high);
  }

  /** Splitting declared ranges leaves every kept span readable. */
  lemma SplitStaysAccepted(spans: seq<Range>, ranges: seq<Range>, excluded: set<int>, maxSpan: int)
    requires AllUpright(spans) && Accepted(spans, Some(ranges), maxSpan)
    requires forall s, x :: s in spans && s.Has(x) ==> x !in excluded
    ensures Accepted(spans, Some(RangesExcluding(ranges, excluded)), maxSpan)
  {
    hide RangesExcluding;
    ValidIsDisjoint(ranges);
    SplittingKeepsValid(ranges, excluded);
    DisjointIsValid(RangesExcluding(ranges, excluded));
    forall s | s in spans ensures Fits(s, RangesExcluding(ranges, excluded)) {
      FitsInOne(s, ranges);
      SpanSurvives(s, ranges, excluded);
      FitsInOne(s, RangesExcluding(ranges, excluded));
    }
  }

  /** Ranges synthesised from the kept fields' blocks can be planned exactly when those blocks do not overlap. */
  lemma SynthesisedIsAccepted(spans: seq<Range>, excluded: set<int>, maxGap: int, maxSpan: int)
    requires Narrowable(spans, None, maxGap, maxSpan)
    requires forall s, x :: s in spans && s.Has(x) ==> x !in excluded
    ensures var blocks := Planned(spans, None, maxGap, maxSpan).value;
      Accepted(spans, Some(RangesExcluding(blocks, excluded)), maxSpan) <==> Disjoint(blocks)
  {
    hide RangesExcluding, Blocks;
    var blocks := Planned(spans, None, maxGap, maxSpan).value;
    PlanIsAdmissible(spans, None, maxGap, maxSpan);
    forall b | b in blocks ensures b.Upright() {
      assert BetweenSpans(b, spans);
      var t :| t in spans && t.low == b.low && t.Within(b);
    }
    var ranges := RangesExcluding(blocks, excluded);
    ValidMeansDisjoint(ranges);
    if Disjoint(blocks) {
      SplittingKeepsValid(blocks, excluded);
      forall s | s in spans ensures Fits(s, ranges) {
        assert Housed(s, blocks);
        SpanSurvives(s, blocks, excluded);
        FitsInOne(s, ranges);
      }
    } else {
      OverlapSticks(spans, blocks, excluded);
    }
  }

  /** The later of two overlapping blocks starts on a kept address that the earlier one holds too. */
  lemma OverlapSticks(spans: seq<Range>, blocks: seq<Range>, excluded: set<int>)
    requires AllUpright(blocks) && Advancing(blocks) && !Disjoint(blocks) && AllUpright(spans)
    requires forall b :: b in blocks ==> BetweenSpans(b, spans)
    requires forall s, x :: s in spans && s.Has(x) ==> x !in excluded
    ensures !Disjoint(RangesExcluding(blocks, excluded))
  {
    hide RangesExcluding;
    var i, j, x :| 0 <= i < j < |blocks| && blocks[i].Has(x) && blocks[j].Has(x);
    var start := blocks[j].low;
    assert blocks[j] in blocks && BetweenSpans(blocks[j], spans);
    var t :| t in spans && t.low == start && t.Within(blocks[j]);
    assert t.Has(start) && blocks[i].low < start;
    OverlapSurvives(blocks, excluded, i, j, start);
  }

  lemma ExcludedSparesKept(kept: seq<ResolvedField>, dropped: seq<ResolvedField>, space: Space)
    ensures forall s, x :: s in SpansIn(kept, space) && s.Has(x) ==> x !in Excluded(kept, dropped, space)
  {
    forall s, x | s in SpansIn(kept, space) && s.Has(x) ensures x !in Excluded(kept, dropped, space) {
      assert Covers(SpansIn(kept, space), x);
    }
  }

  /** What narrowing promises of one space. */
  ghost predicate SafelyNarrowed(stated: Option<seq<Range>>, ranges: Option<seq<Range>>,
                                 kept: seq<ResolvedField>, dropped: seq<ResolvedField>, space: Space,
                                 maxGap: int, maxSpan: int)
  {
    var spans := SpansIn(kept, space);
    // the narrowed component can be planned unless its own blocks overlap
    && (Planned(spans, ranges, maxGap, maxSpan).Ok? <==>
          !(Synthesised(stated, kept, dropped, space) && BlocksOverlap(spans, maxGap, maxSpan)))
    // no block holds an address that only dropped values occupied
    && (Planned(spans, ranges, maxGap, maxSpan).Ok? ==>
          forall b, x :: b in Planned(spans, ranges, maxGap, maxSpan).value && b.Has(x) ==>
            x !in Excluded(kept, dropped, space))
    // declared ranges are only split
    && (stated.Some? ==> ranges.Some? && forall x, y :: SameRun(ranges.value, x, y) ==> SameRun(stated.value, x, y))
  }

  lemma NarrowingOneSpace(stated: Option<seq<Range>>, kept: seq<ResolvedField>, dropped: seq<ResolvedField>, space: Space,
                          maxGap: int, maxSpan: int)
    requires Narrowable(SpansIn(kept, space), stated, maxGap, maxSpan)
    ensures Reshaped(stated, kept, dropped, space, maxGap, maxSpan).Ok?
    ensures SafelyNarrowed(stated, Reshaped(stated, kept, dropped, space, maxGap, maxSpan).value,
                           kept, dropped, space, maxGap, maxSpan)
  {
    hide RangesExcluding, Blocks, Excluded, SpansIn, Fits, Valid;
    var spans, excluded := SpansIn(kept, space), Excluded(kept, dropped, space);
    var ranges := Reshaped(stated, kept, dropped, space, maxGap, maxSpan).value;
    ExcludedSparesKept(kept, dropped, space);
    if excluded != {} && stated.Some? {
      SplitStaysAccepted(spans, stated.value, excluded, maxSpan);
      ValidIsUpright(stated.value);
      ExcludingMeaning(stated.value, excluded);
    } else if excluded != {} && spans != [] {
      SynthesisedIsAccepted(spans, excluded, maxGap, maxSpan);
      BlocksUpright(spans, maxGap, maxSpan);
    }
    if Planned(spans, ranges, maxGap, maxSpan).Ok? {
      forall b, x | b in Planned(spans, ranges, maxGap, maxSpan).value && b.Has(x) ensures x !in excluded {
        if excluded != {} {
          NothingExcludedIsRead(stated, kept, dropped, space, maxGap, maxSpan, b, x);
        }
      }
    }
  }

  lemma ValidIsUpright(ranges: seq<Range>)
    requires Valid(ranges)
    ensures AllUpright(ranges)
  {
  }

  lemma BlocksUpright(spans: seq<Range>, maxGap: int, maxSpan: int)
    requires Narrowable(spans, None, maxGap, maxSpan)
    ensures AllUpright(Planned(spans, None, maxGap, maxSpan).value)
  {
    hide Blocks;
    PlanIsAdmissible(spans, None, maxGap, maxSpan);
    forall b | b in Planned(spans, None, maxGap, maxSpan).value ensures b.Upright() {
      assert BetweenSpans(b, spans);
      var t :| t in spans && t.low == b.low && t.Within(b);
    }
  }

  lemma NothingExcludedIsRead(stated: Option<seq<Range>>, kept: seq<ResolvedField>, dropped: seq<ResolvedField>, space: Space,
                              maxGap: int, maxSpan: int, b: Range, x: int)
    requires Narrowable(SpansIn(kept, space), stated, maxGap, maxSpan)
    requires Reshaped(stated, kept, dropped, space, maxGap, maxSpan).Ok? && Excluded(kept, dropped, space) != {}
    requires var ranges := Reshaped(stated, kept, dropped, space, maxGap, maxSpan).value;
      && Planned(SpansIn(kept, space), ranges, maxGap, maxSpan).Ok?
      && b in Planned(SpansIn(kept, space), ranges, maxGap, maxSpan).value && b.Has(x)
    ensures x !in Excluded(kept, dropped, space)
  {
    hide RangesExcluding, Blocks, Excluded, SpansIn, Fits, Valid;
    var spans, excluded := SpansIn(kept, space), Excluded(kept, dropped, space);
    var ranges := Reshaped(stated, kept, dropped, space, maxGap, maxSpan).value;
    PlanIsAdmissible(spans, ranges, maxGap, maxSpan);
    assert Respects(b, spans, ranges, maxGap, maxSpan) && BetweenSpans(b, spans);
    assert spans != [];
    var whole := if stated.Some? then stated.value else Planned(spans, None, maxGap, maxSpan).value;
    assert ranges == Some(RangesExcluding(whole, excluded));
    if stated.Some? { ValidIsUpright(whole); } else { BlocksUpright(spans, maxGap, maxSpan); }
    ExcludingMeaning(whole, excluded);
    var r :| r in ranges.value && b.Within(r);
    assert r.Has(x);
    assert SameRun(ranges.value, x, x);
  }

  // ----- narrowing a placed component -----

  lemma MovedSpans(f: ResolvedField, k: int)
    ensures Move(f, k).Spans() == ShiftAll(f.Spans(), k)
  {
  }

  lemma {:induction false} SpansMove(fields: seq<ResolvedField>, space: Space, k: int)
    ensures SpansIn(MoveAll(fields, k), space) == ShiftAll(SpansIn(fields, space), k)
  {
    if fields != [] {
      var n := |fields| - 1;
      assert MoveAll(fields, k)[..n] == MoveAll(fields[..n], k);
      SpansMove(fields[..n], space, k);
      MovedSpans(fields[n], k);
      if fields[n].space == space {
        ShiftConcat(SpansIn(fields[..n], space), fields[n].Spans(), k);
      }
    }
  }

  lemma ShiftConcat(a: seq<Range>, b: seq<Range>, k: int)
    ensures ShiftAll(a + b, k) == ShiftAll(a, k) + ShiftAll(b, k)
  {
  }

  /** The plan of a placed component is its plan in declared coordinates, moved by its base offset. */
  lemma PlanInMoves(shape: Shape, settings: Settings, space: Space)
    ensures var declared := Planned(SpansIn(DeclaredAll(shape.fields, settings.index), space), StatedIn(shape, space),
                                    settings.maxGap, settings.maxSpan);
      PlanIn(shape, settings, space) ==
      if declared.Ok? then Ok(ShiftAll(declared.value, settings.baseOffset)) else Err(PlanError)
  {
    hide Planned, SpansIn;
    SpansMove(DeclaredAll(shape.fields, settings.index), space, settings.baseOffset);
    PlanShifts(SpansIn(DeclaredAll(shape.fields, settings.index), space), StatedIn(shape, space),
               settings.maxGap, settings.maxSpan, settings.baseOffset);
  }

  lemma {:induction false} KeptMembers(fields: seq<FieldDecl>, keep: set<string>, f: FieldDecl)
    ensures f in Kept(fields, keep) <==> f in fields && f.name in keep
    ensures f in Dropped(fields, keep) <==> f in fields && f.name !in keep
  {
    if fields != [] {
      KeptMembers(fields[1..], keep, f);
      assert fields == [fields[0]] + fields[1..];
    }
  }

  /** Fields stay in the order they are declared in. */
  lemma {:induction false} KeptInOrder(a: seq<FieldDecl>, b: seq<FieldDecl>, keep: set<string>)
    ensures Kept(a + b, keep) == Kept(a, keep) + Kept(b, keep)
    ensures forall f :: Kept([f], keep) == if f.name in keep then [f] else []
  {
    if a == [] {
      assert [] + b == b;
    } else {
      assert (a + b)[1..] == a[1..] + b;
      KeptInOrder(a[1..], b, keep);
    }
    forall f ensures Kept([f], keep) == if f.name in keep then [f] else [] {
      assert [f][1..] == [];
    }
  }

  /** The first unit of a strided layout is read where it is declared, and each next one a stride further on. */
  lemma DeclaredIsStrided(f: FieldDecl, index: int)
    ensures Declared(f, 1) == ResolvedField(f.name, f.address, f.count, f.scaleRegister, f.space)
    ensures Declared(f, index + 1).address == Declared(f, index).address + f.stride
    ensures f.scaleRegister.Some? ==>
      && Declared(f, index).scaleAddress.Some? && Declared(f, index + 1).scaleAddress.Some?
      && Declared(f, index + 1).scaleAddress.value == Declared(f, index).scaleAddress.value + f.scaleRegisterStride
  {
    assert f.stride * (index + 1 - 1) == f.stride * (index - 1) + f.stride;
    assert f.scaleRegisterStride * (index + 1 - 1) == f.scaleRegisterStride * (index - 1) + f.scaleRegisterStride;
  }

  lemma DeclaredMembers(fields: seq<FieldDecl>, index: int, f: ResolvedField)
    ensures f in DeclaredAll(fields, index) <==> exists d :: d in fields && f == Declared(d, index)
  {
    var all := DeclaredAll(fields, index);
    if f in all {
      var i :| 0 <= i < |all| && all[i] == f;
      assert fields[i] in fields;
    }
    if d :| d in fields && f == Declared(d, index) {
      var i :| 0 <= i < |fields| && fields[i] == d;
      assert all[i] == f;
    }
  }

  /** The kept fields need some of the spans the whole layout needs. */
  lemma KeptSpans(fields: seq<FieldDecl>, keep: set<string>, index: int, space: Space)
    ensures forall s :: s in SpansIn(DeclaredAll(Kept(fields, keep), index), space) ==>
                        s in SpansIn(DeclaredAll(fields, index), space)
  {
    var kept, all := DeclaredAll(Kept(fields, keep), index), DeclaredAll(fields, index);
    forall s | s in SpansIn(kept, space) ensures s in SpansIn(all, space) {
      SpansInMembers(kept, space, s);
      var f :| f in kept && f.space == space && s in f.Spans();
      DeclaredMembers(Kept(fields, keep), index, f);
      var d :| d in Kept(fields, keep) && f == Declared(d, index);
      KeptMembers(fields, keep, d);
      DeclaredMembers(fields, index, f);
      SpansInMembers(all, space, s);
    }
  }

  ghost predicate SizedDecls(fields: seq<FieldDecl>) {
    forall f :: f in fields ==> f.count > 0
  }

  function SpacesIn(settings: Settings): seq<Space> {
    [settings.registerSpace, Coil, Discrete]
  }

  /** The layout can be read as it stands. */
  ghost predicate Readable(shape: Shape, settings: Settings) {
    && settings.registerSpace in {Holding, Input} && 0 <= settings.maxGap && SizedDecls(shape.fields)
    && forall space :: space in SpacesIn(settings) ==> PlanIn(shape, settings, space).Ok?
  }

  lemma SpaceIsNarrowable(shape: Shape, settings: Settings, keep: set<string>, space: Space)
    requires Readable(shape, settings) && space in SpacesIn(settings)
    ensures Narrowable(SpansIn(DeclaredAll(Kept(shape.fields, keep), settings.index), space), StatedIn(shape, space),
                       settings.maxGap, settings.maxSpan)
  {
    hide SpansIn, Fits, Valid;
    var kept := DeclaredAll(Kept(shape.fields, keep), settings.index);
    PlanInMoves(shape, settings, space);
    KeptSpans(shape.fields, keep, settings.index, space);
    forall f | f in kept ensures f.count > 0 {
      DeclaredMembers(Kept(shape.fields, keep), settings.index, f);
      var d :| d in Kept(shape.fields, keep) && f == Declared(d, settings.index);
      KeptMembers(shape.fields, keep, d);
    }
    SpansUpright(kept, space);
  }

  function ReshapedIn(shape: Shape, settings: Settings, keep: set<string>, space: Space): Result<Option<seq<Range>>, PlanError> {
    Reshaped(StatedIn(shape, space), DeclaredAll(Kept(shape.fields, keep), settings.index),
             DeclaredAll(Dropped(shape.fields, keep), settings.index), space, settings.maxGap, settings.maxSpan)
  }

  /** Ranges appear where none were stated. */
  predicate NewlyClaimed(shape: Shape, settings: Settings, keep: set<string>, space: Space) {
    && ReshapedIn(shape, settings, keep, space).Ok?
    && StatedIn(shape, space).None? && ReshapedIn(shape, settings, keep, space).value.Some?
  }

  /** Each space is reshaped from its own stated ranges, whatever the loop did to the spaces before it. */
  lemma {:induction false} EachSpaceReshaped(shape: Shape, settings: Settings, keep: set<string>, n: nat)
    requires settings.registerSpace in {Holding, Input} && n <= 3
    requires forall space :: space in SpacesIn(settings) ==> ReshapedIn(shape, settings, keep, space).Ok?
    ensures ReshapeEach(shape, settings, keep, SpacesIn(settings), n).Ok?
    ensures var after := ReshapeEach(shape, settings, keep, SpacesIn(settings), n).value;
      && after.fields == shape.fields
      && forall i :: 0 <= i < 3 ==>
           var space := SpacesIn(settings)[i];
           && StatedIn(after, space) == (if i < n then ReshapedIn(shape, settings, keep, space).value else StatedIn(shape, space))
           && (space in after.claimed <==> space in shape.claimed || (i < n && NewlyClaimed(shape, settings, keep, space)))
  {
    hide Reshaped, Kept, Dropped;
    if n > 0 {
      EachSpaceReshaped(shape, settings, keep, n - 1);
      assert SpacesIn(settings)[n - 1] in SpacesIn(settings);
    }
  }

  lemma EverySpaceReshapes(shape: Shape, settings: Settings, keep: set<string>, space: Space)
    requires Readable(shape, settings) && space in SpacesIn(settings)
    ensures ReshapedIn(shape, settings, keep, space).Ok?
    ensures SafelyNarrowed(StatedIn(shape, space), ReshapedIn(shape, settings, keep, space).value,
                           DeclaredAll(Kept(shape.fields, keep), settings.index),
                           DeclaredAll(Dropped(shape.fields, keep), settings.index), space, settings.maxGap, settings.maxSpan)
  {
    hide SafelyNarrowed, Reshaped, Readable, Kept, Dropped, Narrowable;
    SpaceIsNarrowable(shape, settings, keep, space);
    NarrowingOneSpace(StatedIn(shape, space), DeclaredAll(Kept(shape.fields, keep), settings.index),
                      DeclaredAll(Dropped(shape.fields, keep), settings.index), space, settings.maxGap, settings.maxSpan);
  }

  /** A field that stays needs the address, for its value or its scale. */
  ghost predicate NeededByKept(fields: seq<FieldDecl>, keep: set<string>, index: int, space: Space, x: int) {
    exists f, s :: f in fields && f.name in keep && f.space == space && s in Declared(f, index).Spans() && s.Has(x)
  }

  /** A field that goes has its value at the address. */
  ghost predicate HeldByDropped(fields: seq<FieldDecl>, keep: set<string>, index: int, space: Space, x: int) {
    exists f :: f in fields && f.name !in keep && f.space == space && Declared(f, index).Span().Has(x)
  }

  /** Only fields that go had anything at the address. */
  ghost predicate OnlyDropped(fields: seq<FieldDecl>, keep: set<string>, index: int, space: Space, x: int) {
    HeldByDropped(fields, keep, index, space, x) && !NeededByKept(fields, keep, index, space, x)
  }

  /** No ranges are stated for the space, some field of it stays, and some address of it is needed no more. */
  ghost predicate Synthesises(shape: Shape, settings: Settings, keep: set<string>, space: Space) {
    && StatedIn(shape, space).None?
    && (exists f :: f in shape.fields && f.name in keep && f.space == space)
    && (exists x :: OnlyDropped(shape.fields, keep, settings.index, space, x))
  }

  lemma {:induction false} ValueSpanMembers(fields: seq<ResolvedField>, space: Space, s: Range)
    ensures s in ValueSpans(fields, space) <==> exists f :: f in fields && f.space == space && s == f.Span()
  {
    if fields != [] {
      ValueSpanMembers(fields[1..], space, s);
      assert fields == [fields[0]] + fields[1..];
      assert forall f :: f in fields <==> f == fields[0] || f in fields[1..];
    }
  }

  /** What the ranges are reshaped around is what only fields that go had. */
  lemma ExcludedIsOnlyDropped(fields: seq<FieldDecl>, keep: set<string>, index: int, space: Space, x: int)
    ensures x in Excluded(DeclaredAll(Kept(fields, keep), index), DeclaredAll(Dropped(fields, keep), index), space) <==>
            OnlyDropped(fields, keep, index, space, x)
  {
    hide SpansIn, ValueSpans, Kept, Dropped;
    KeptNeeds(fields, keep, index, space, x);
    DroppedHolds(fields, keep, index, space, x);
  }

  lemma KeptNeeds(fields: seq<FieldDecl>, keep: set<string>, index: int, space: Space, x: int)
    ensures Covers(SpansIn(DeclaredAll(Kept(fields, keep), index), space), x) <==> NeededByKept(fields, keep, index, space, x)
  {
    hide SpansIn, Kept;
    var kept := DeclaredAll(Kept(fields, keep), index);
    if Covers(SpansIn(kept, space), x) {
      var s :| s in SpansIn(kept, space) && s.Has(x);
      SpansInMembers(kept, space, s);
      var f :| f in kept && f.space == space && s in f.Spans();
      DeclaredMembers(Kept(fields, keep), index, f);
      var d :| d in Kept(fields, keep) && f == Declared(d, index);
      KeptMembers(fields, keep, d);
    }
    if NeededByKept(fields, keep, index, space, x) {
      var d, s :| d in fields && d.name in keep && d.space == space && s in Declared(d, index).Spans() && s.Has(x);
      KeptMembers(fields, keep, d);
      DeclaredMembers(Kept(fields, keep), index, Declared(d, index));
      SpansInMembers(kept, space, s);
    }
  }

  lemma DroppedHolds(fields: seq<FieldDecl>, keep: set<string>, index: int, space: Space, x: int)
    ensures Covers(ValueSpans(DeclaredAll(Dropped(fields, keep), index), space), x) <==> HeldByDropped(fields, keep, index, space, x)
  {
    hide ValueSpans, Dropped;
    var dropped := DeclaredAll(Dropped(fields, keep), index);
    if Covers(ValueSpans(dropped, space), x) {
      var s :| s in ValueSpans(dropped, space) && s.Has(x);
      ValueSpanMembers(dropped, space, s);
      var f :| f in dropped && f.space == space && s == f.Span();
      DeclaredMembers(Dropped(fields, keep), index, f);
      var d :| d in Dropped(fields, keep) && f == Declared(d, index);
      KeptMembers(fields, keep, d);
    }
    if HeldByDropped(fields, keep, index, space, x) {
      var d :| d in fields && d.name !in keep && d.space == space && Declared(d, index).Span().Has(x);
      KeptMembers(fields, keep, d);
      DeclaredMembers(Dropped(fields, keep), index, Declared(d, index));
      ValueSpanMembers(dropped, space, Declared(d, index).Span());
    }
  }

  lemma SynthesisedIs(shape: Shape, settings: Settings, keep: set<string>, space: Space)
    ensures Synthesised(StatedIn(shape, space), DeclaredAll(Kept(shape.fields, keep), settings.index),
                        DeclaredAll(Dropped(shape.fields, keep), settings.index), space) <==>
            Synthesises(shape, settings, keep, space)
  {
    hide SpansIn, Excluded, Kept, Dropped, OnlyDropped;
    var kept, dropped := DeclaredAll(Kept(shape.fields, keep), settings.index), DeclaredAll(Dropped(shape.fields, keep), settings.index);
    forall x { ExcludedIsOnlyDropped(shape.fields, keep, settings.index, space, x); }
    assert Excluded(kept, dropped, space) != {} <==> exists x :: OnlyDropped(shape.fields, keep, settings.index, space, x) by {
      if x :| OnlyDropped(shape.fields, keep, settings.index, space, x) { assert x in Excluded(kept, dropped, space); }
      SomeMember(Excluded(kept, dropped, space));
    }
    SomeKept(shape.fields, keep, settings.index, space);
  }

  lemma SomeMember(s: set<int>)
    ensures s == {} <==> forall x :: x !in s
  {
    if forall x :: x !in s { assert s == {}; }
  }

  lemma SomeKept(fields: seq<FieldDecl>, keep: set<string>, index: int, space: Space)
    ensures SpansIn(DeclaredAll(Kept(fields, keep), index), space) != [] <==>
            exists f :: f in fields && f.name in keep && f.space == space
  {
    hide SpansIn, Kept;
    var kept := DeclaredAll(Kept(fields, keep), index);
    if SpansIn(kept, space) != [] {
      var s := SpansIn(kept, space)[0];
      SpansInMembers(kept, space, s);
      var f :| f in kept && f.space == space && s in f.Spans();
      DeclaredMembers(Kept(fields, keep), index, f);
      var d :| d in Kept(fields, keep) && f == Declared(d, index);
      KeptMembers(fields, keep, d);
    }
    if d :| d in fields && d.name in keep && d.space == space {
      KeptMembers(fields, keep, d);
      DeclaredMembers(Kept(fields, keep), index, Declared(d, index));
      SpansInMembers(kept, space, Declared(d, index).Span());
      assert Declared(d, index).Span() in SpansIn(kept, space);
    }
  }

  /** What narrowing promises of one space of a placed component. */
  ghost predicate SafelyPlaced(shape: Shape, after: Shape, settings: Settings, keep: set<string>, space: Space) {
    var stated := StatedIn(shape, space);
    // the narrowed component can be planned unless its own blocks overlap
    && (PlanIn(after, settings, space).Ok? <==>
          !(Synthesises(shape, settings, keep, space) &&
            BlocksOverlap(SpansIn(DeclaredAll(Kept(shape.fields, keep), settings.index), space), settings.maxGap, settings.maxSpan)))
    // no block holds an address where only fields that went had anything
    && (PlanIn(after, settings, space).Ok? ==>
          forall b, x :: b in PlanIn(after, settings, space).value && b.Has(x) ==>
            !OnlyDropped(shape.fields, keep, settings.index, space, x - settings.baseOffset))
    // declared ranges are only split
    && (stated.Some? ==>
          && StatedIn(after, space).Some?
          && forall x, y :: SameRun(StatedIn(after, space).value, x, y) ==> SameRun(stated.value, x, y))
    // ranges that were not stated before are a claim, not a declaration
    && (space in after.claimed <==> space in shape.claimed || Synthesises(shape, settings, keep, space))
  }

  /**
   Narrowing a readable component never raises. The narrowed component can be
   planned again unless its ranges were synthesised from kept fields whose own
   blocks overlap, and then it cannot. Its blocks hold no address where only
   dropped fields had their values, declared ranges are only split, and
   synthesised ones are claimed.
   */
  lemma NarrowingIsSafe(shape: Shape, settings: Settings, keep: set<string>, space: Space)
    requires Readable(shape, settings) && space in SpacesIn(settings)
    ensures Narrowed(shape, settings, keep).Ok?
    ensures SafelyPlaced(shape, Narrowed(shape, settings, keep).value, settings, keep, space)
  {
    hide Reshaped, SafelyNarrowed, SafelyPlaced, Kept, Dropped;
    forall sp | sp in SpacesIn(settings) ensures ReshapedIn(shape, settings, keep, sp).Ok? {
      EverySpaceReshapes(shape, settings, keep, sp);
    }
    EachSpaceReshaped(shape, settings, keep, 3);
    EverySpaceReshapes(shape, settings, keep, space);
    var after := Narrowed(shape, settings, keep).value;
    var i :| 0 <= i < 3 && SpacesIn(settings)[i] == space;
    assert StatedIn(after, space) == ReshapedIn(shape, settings, keep, space).value;
    SafeWhenPlaced(shape, after, settings, keep, space);
  }

  lemma SafeWhenPlaced(shape: Shape, after: Shape, settings: Settings, keep: set<string>, space: Space)
    requires after.fields == Kept(shape.fields, keep)
    requires ReshapedIn(shape, settings, keep, space) == Ok(StatedIn(after, space))
    requires space in after.claimed <==> space in shape.claimed || NewlyClaimed(shape, settings, keep, space)
    requires SafelyNarrowed(StatedIn(shape, space), StatedIn(after, space), DeclaredAll(Kept(shape.fields, keep), settings.index),
                            DeclaredAll(Dropped(shape.fields, keep), settings.index), space, settings.maxGap, settings.maxSpan)
    ensures SafelyPlaced(shape, after, settings, keep, space)
  {
    hide Planned, SpansIn, Excluded, BlocksOverlap, ShiftAll, Kept, Dropped, OnlyDropped, Synthesises;
    PlanInMoves(after, settings, space);
    SynthesisedIs(shape, settings, keep, space);
    var excluded := Excluded(DeclaredAll(Kept(shape.fields, keep), settings.index), DeclaredAll(Dropped(shape.fields, keep), settings.index), space);
    if PlanIn(after, settings, space).Ok? {
      MovedBlocks(Planned(SpansIn(DeclaredAll(Kept(shape.fields, keep), settings.index), space), StatedIn(after, space),
                          settings.maxGap, settings.maxSpan).value, settings.baseOffset, excluded);
      forall b, x | b in PlanIn(after, settings, space).value && b.Has(x)
        ensures !OnlyDropped(shape.fields, keep, settings.index, space, x - settings.baseOffset)
      {
        ExcludedIsOnlyDropped(shape.fields, keep, settings.index, space, x - settings.baseOffset);
      }
    }
  }

  /** In particular narrowing to fields whose registers, scale registers included, are shared by none or whole is always safe. */
  lemma NarrowingToApartIsPlannable(shape: Shape, settings: Settings, keep: set<string>, space: Space)
    requires Readable(shape, settings) && space in SpacesIn(settings)
    requires SharingNothing(SpansIn(DeclaredAll(Kept(shape.fields, keep), settings.index), space))
    ensures Narrowed(shape, settings, keep).Ok? && PlanIn(Narrowed(shape, settings, keep).value, settings, space).Ok?
  {
    hide Reshaped, Planned, Kept, Dropped, Narrowed, PlanIn, SpansIn, SharingNothing, Excluded;
    NarrowingIsSafe(shape, settings, keep, space);
    SpaceIsNarrowable(shape, settings, keep, space);
    ApartIsDisjoint(SpansIn(DeclaredAll(Kept(shape.fields, keep), settings.index), space), settings.maxGap, settings.maxSpan);
  }

  lemma ApartIsDisjoint(spans: seq<Range>, maxGap: int, maxSpan: int)
    requires AllUpright(spans) && SharingNothing(spans)
    ensures !BlocksOverlap(spans, maxGap, maxSpan)
  {
    hide Blocks;
    var ordered := SortUnique(spans);
    SortUniqueSorts(spans);
    if ordered == [] {
      NothingPlanned(None, maxGap, maxSpan);
    } else {
      ApartBlocks(ordered, None, maxGap, maxSpan);
    }
  }

  /** And a narrowed component that can be planned still reads every kept field and scale register whole. */
  lemma NarrowingReadsWhatItKeeps(shape: Shape, settings: Settings, keep: set<string>, space: Space)
    requires Readable(shape, settings) && Narrowed(shape, settings, keep).Ok?
    requires PlanIn(Narrowed(shape, settings, keep).value, settings, space).Ok?
    ensures Whole(SpansIn(MoveAll(DeclaredAll(Kept(shape.fields, keep), settings.index), settings.baseOffset), space),
                  PlanIn(Narrowed(shape, settings, keep).value, settings, space).value)
  {
    hide Planned, ReshapeEach, SpansIn, Kept;
    var after := Narrowed(shape, settings, keep).value;
    var fields := MoveAll(DeclaredAll(after.fields, settings.index), settings.baseOffset);
    forall f | f in fields ensures f.count > 0 {
      var i :| 0 <= i < |fields| && fields[i] == f;
      KeptMembers(shape.fields, keep, after.fields[i]);
      assert after.fields[i] in after.fields;
    }
    SpansUpright(fields, space);
    PlanIsAdmissible(SpansIn(fields, space), ShiftRanges(StatedIn(after, space), settings.baseOffset), settings.maxGap, settings.maxSpan);
  }

  lemma MovedBlocks(declared: seq<Range>, k: int, excluded: set<int>)
    requires forall b, x :: b in declared && b.Has(x) ==> x !in excluded
    ensures forall b, x :: b in ShiftAll(declared, k) && b.Has(x) ==> x - k !in excluded
  {
    forall b, x | b in ShiftAll(declared, k) && b.Has(x) ensures x - k !in excluded {
      ShiftMembers(declared, k, b);
      assert b.Shift(-k).Has(x - k);
    }
  }

  function LongField(name: string): FieldDecl { FieldDecl(name, 0, 100, 0, None, 0, Holding) }

  function LateField(name: string): FieldDecl { FieldDecl(name, 90, 50, 0, None, 0, Holding) }

  function FarField(name: string): FieldDecl { FieldDecl(name, 300, 1, 0, None, 0, Holding) }

  const DEFAULTS := Settings(Holding, 1, 0, MAX_GAP, MAX_SPAN)

  /**
   The overlap can happen. A 100-register field, a 50-register field over its
   last ten registers, and a far third field are readable together; dropping
   the third leaves two overlapping blocks as ranges, which planning rejects.
   */
  lemma NarrowingCanBreakAPlan(long: string, late: string, far: string, shape: Shape)
    requires far != long && far != late
    requires shape == Shape([LongField(long), LateField(late), FarField(far)], map[], {})
    ensures Readable(shape, DEFAULTS)
    ensures Narrowed(shape, DEFAULTS, {long, late}).Ok?
    ensures PlanIn(Narrowed(shape, DEFAULTS, {long, late}).value, DEFAULTS, Holding).Err?
  {
    hide Reshaped, Excluded, SpansIn, BlocksOverlap, Planned, Synthesised, Synthesises, OnlyDropped, Kept, Dropped, Narrowed, PlanIn;
    KeptExample(LongField(long), LateField(late), FarField(far), {long, late});
    ExampleIsReadable(shape, DEFAULTS);
    var kept, dropped := DeclaredAll([LongField(long), LateField(late)], 1), DeclaredAll([FarField(far)], 1);
    NarrowingIsSafe(shape, DEFAULTS, {long, late}, Holding);
    SynthesisedIs(shape, DEFAULTS, {long, late}, Holding);
    ExampleOverlaps(long, late, far, kept, dropped);
  }

  lemma KeptExample(a: FieldDecl, b: FieldDecl, c: FieldDecl, keep: set<string>)
    requires a.name in keep && b.name in keep && c.name !in keep
    ensures Kept([a, b, c], keep) == [a, b] && Dropped([a, b, c], keep) == [c]
  {
    assert [a, b, c][1..] == [b, c] && [b, c][1..] == [c] && [c][1..] == [];
    assert Kept([c], keep) == [] && Dropped([c], keep) == [c];
    assert Kept([b, c], keep) == [b] && Dropped([b, c], keep) == [c];
  }

  lemma ExampleIsReadable(shape: Shape, settings: Settings)
    requires settings == Settings(Holding, 1, 0, MAX_GAP, MAX_SPAN) && shape.stated == map[]
    requires forall f :: f in shape.fields ==> 0 < f.count <= 100 && f.stride == 0 && f.scaleRegister.None?
    ensures Readable(shape, settings)
  {
    hide SpansIn, PlanIn, DeclaredAll, ShiftAll, Blocks;
    var all := DeclaredAll(shape.fields, settings.index);
    forall space | space in SpacesIn(settings) ensures PlanIn(shape, settings, space).Ok? {
      forall s | s in SpansIn(all, space) ensures s.Width() <= settings.maxSpan {
        SpansInMembers(all, space, s);
        var f :| f in all && f.space == space && s in f.Spans();
        DeclaredMembers(shape.fields, settings.index, f);
      }
      PlanInMoves(shape, settings, space);
    }
  }

  lemma ExampleOverlaps(l: string, t: string, f: string, kept: seq<ResolvedField>, dropped: seq<ResolvedField>)
    requires kept == [ResolvedField(l, 0, 100, None, Holding), ResolvedField(t, 90, 50, None, Holding)]
    requires dropped == [ResolvedField(f, 300, 1, None, Holding)]
    ensures Synthesised(None, kept, dropped, Holding)
    ensures BlocksOverlap(SpansIn(kept, Holding), MAX_GAP, MAX_SPAN)
  {
    hide SpansIn, Blocks;
    var spans := SpansIn(kept, Holding);
    forall s ensures s in spans <==> s == Range(0, 99) || s == Range(90, 139) {
      SpansInMembers(kept, Holding, s);
      assert kept[0].Spans() == [Range(0, 99)] && kept[1].Spans() == [Range(90, 139)];
      assert kept[0] in kept && kept[1] in kept;
    }
    assert Range(0, 99) in spans;
    FarIsExcluded(spans, kept, dropped);
    TwoSpansOverlap(spans);
  }

  lemma FarIsExcluded(spans: seq<Range>, kept: seq<ResolvedField>, dropped: seq<ResolvedField>)
    requires spans == SpansIn(kept, Holding)
    requires forall s :: s in spans <==> s == Range(0, 99) || s == Range(90, 139)
    requires |dropped| == 1 && dropped[0].Span() == Range(300, 300) && dropped[0].space == Holding
    ensures 300 in Excluded(kept, dropped, Holding)
  {
    hide SpansIn;
    assert !Covers(spans, 300);
    assert ValueSpans(dropped, Holding) == [Range(300, 300)] by { assert dropped[1..] == []; }
    assert Covers([Range(300, 300)], 300) by { assert Range(300, 300) in [Range(300, 300)]; }
  }

  lemma TwoSpansOverlap(spans: seq<Range>)
    requires forall s :: s in spans <==> s == Range(0, 99) || s == Range(90, 139)
    ensures BlocksOverlap(spans, MAX_GAP, MAX_SPAN)
  {
    hide Blocks;
    var long, late := Range(0, 99), Range(90, 139);
    assert long in spans && late in spans && long.Width() <= MAX_SPAN && late.Width() <= MAX_SPAN;
    PlanIsAdmissible(spans, None, MAX_GAP, MAX_SPAN);
    var blocks := Planned(spans, None, MAX_GAP, MAX_SPAN).value;
    assert Housed(long, blocks) && Housed(late, blocks);
    var i :| 0 <= i < |blocks| && long.Within(blocks[i]);
    var j :| 0 <= j < |blocks| && late.Within(blocks[j]);
    assert Respects(blocks[i], spans, None, MAX_GAP, MAX_SPAN) && i != j;
    assert blocks[i].Has(90) && blocks[j].Has(90);
  }
}
