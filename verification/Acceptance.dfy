/**
 Which definitions the generator can place (`_parse_group` in
 src/modbus_connection/model/sunspec/generate.py), said of the definition alone.
 */
module Acceptance {
  import opened Wrappers
  import opened Layout
  import opened Placement

  /** How much is known of the registers of a block: their number, their number per value of count points, or neither. */
  datatype Extent = Known | Counted | Unknown

  /** The block repeats a number of times that is known. */
  predicate FixedTimes(raw: RawGroup, counts: map<string, int>) {
    FixedCount(Overridden(raw.count, counts)).Some?
  }

  /** One instance of a block: only its last nested block can leave anything open. */
  function ExtentOf(raw: RawGroup, counts: map<string, int>): Extent
    decreases raw, 0
  {
    if raw.groups == [] then Known else ExtentOfAll(raw.groups[|raw.groups| - 1], counts)
  }

  /** All instances of a block: a named number of instances of known size is counted, of any other is not. */
  function ExtentOfAll(raw: RawGroup, counts: map<string, int>): Extent
    decreases raw, 1
  {
    if FixedTimes(raw, counts) then ExtentOf(raw, counts)
    else if Overridden(raw.count, counts).Named? && ExtentOf(raw, counts).Known? then Counted
    else Unknown
  }

  /** A block may follow another of known extent, or one of its own shape that repeats a known number of times. */
  predicate MayFollow(raw: RawGroup, next: RawGroup, counts: map<string, int>) {
    || ExtentOfAll(raw, counts).Known?
    || (FixedTimes(raw, counts) && ExtentOfAll(raw, counts).Counted? && Shape(next) == Shape(raw))
  }

  ghost predicate FollowFrom(raw: RawGroup, k: nat, counts: map<string, int>) {
    forall i, j :: k <= i < j < |raw.groups| ==> MayFollow(raw.groups[i], raw.groups[j], counts)
  }

  /** Every block at every depth may follow those before it. */
  ghost predicate Acceptable(raw: RawGroup, counts: map<string, int>) {
    && (forall i {:trigger raw.groups[i]} :: 0 <= i < |raw.groups| ==> Acceptable(raw.groups[i], counts))
    && FollowFrom(raw, 0, counts)
  }

  // ----- it is the shape that matters -----

  lemma {:induction false} SameExtent(a: RawGroup, b: RawGroup, counts: map<string, int>)
    requires Shape(a) == Shape(b)
    ensures ExtentOf(a, counts) == ExtentOf(b, counts)
    ensures FixedTimes(a, counts) == FixedTimes(b, counts) && ExtentOfAll(a, counts) == ExtentOfAll(b, counts)
    decreases a
  {
    hide Shape;
    ShapeParts(a, b);
    if a.groups != [] {
      var n := |a.groups| - 1;
      assert Shape(a.groups[n]) == Shape(b.groups[n]);
      SameExtent(a.groups[n], b.groups[n], counts);
    }
  }

  lemma {:induction false} SameAcceptable(a: RawGroup, b: RawGroup, counts: map<string, int>)
    requires Shape(a) == Shape(b) && Acceptable(a, counts)
    ensures Acceptable(b, counts)
    decreases a
  {
    hide Shape, ExtentOfAll, FixedTimes;
    ShapeParts(a, b);
    forall i {:trigger b.groups[i]} | 0 <= i < |b.groups| ensures Acceptable(b.groups[i], counts) {
      SameAcceptable(a.groups[i], b.groups[i], counts);
    }
    forall i, j | 0 <= i < j < |b.groups| ensures MayFollow(b.groups[i], b.groups[j], counts) {
      assert MayFollow(a.groups[i], a.groups[j], counts);
      assert Shape(a.groups[i]) == Shape(b.groups[i]) && Shape(a.groups[j]) == Shape(b.groups[j]);
      SameExtent(a.groups[i], b.groups[i], counts);
    }
  }

  // ----- regions -----

  lemma {:induction false} SameShapedStops(groups: seq<RawGroup>, k: nat, n: nat)
    requires k < |groups| && 0 < n <= |groups| - k
    ensures var m := SameShaped(groups, k, n); k + m == |groups| || Shape(groups[k + m]) != Shape(groups[k])
    decreases |groups| - k - n
  {
    hide Shape;
    if k + n < |groups| && Shape(groups[k + n]) == Shape(groups[k]) { SameShapedStops(groups, k, n + 1); }
  }

  /**
   A block with registers per count point, repeated a known number of times, stands for itself and every
   block of its shape right behind it; any other block stands for itself.
   */
  lemma RegionsAreMaximal(groups: seq<RawGroup>, k: nat, child: Group)
    requires k < |groups|
    ensures var m := Collapsed(groups, k, child);
      && ShapedAlike(groups, k, k + m)
      && (FixedCount(child.count).Some? && child.terms != [] ==> k + m == |groups| || Shape(groups[k + m]) != Shape(groups[k]))
      && (FixedCount(child.count).None? || child.terms == [] ==> m == 1)
  {
    hide Shape;
    CollapsedAreSameShaped(groups, k, child);
    SameShapedStops(groups, k, 1);
  }

  // ----- what is accepted -----

  /** What a parsed group knows of its size. */
  ghost predicate Tells(size: Option<int>, terms: Terms, extent: Extent) {
    (size.None? <==> extent.Unknown?) && (terms != [] <==> extent.Counted?)
  }

  /** What is left to place may follow, and is acceptable itself. */
  ghost predicate AcceptableFrom(raw: RawGroup, k: nat, counts: map<string, int>) {
    && (forall i {:trigger raw.groups[i]} :: k <= i < |raw.groups| ==> Acceptable(raw.groups[i], counts))
    && FollowFrom(raw, k, counts)
  }

  /** What one parsed group leaves known of the block it is in. */
  lemma AdvanceTells(raw: RawGroup, k: nat, st: Parsing, parsed: Group, start: int, counts: map<string, int>)
    requires k < |raw.groups| && st.size.Some? && st.terms == []
    requires parsed.count == Overridden(raw.groups[k].count, counts) && Tells(parsed.size, parsed.terms, ExtentOf(raw.groups[k], counts))
    ensures var next := Advance(st, Region(raw.groups, k, parsed), start);
      Tells(next.size, next.terms, ExtentOfAll(raw.groups[k], counts))
  {
    hide Shape, SameShaped, AddTerms, AddTerm;
    var child := Region(raw.groups, k, parsed);
    RegionRepeats(raw.groups, k, parsed);
    if FixedCount(child.count).Some? {
      AddTermsAdd([], parsed.terms, child.count.n, |parsed.terms|, _ => 0);
      NoTerms(child.count.n);
    } else if child.count.Named? && child.size.Some? {
      AddTermAdds([], child.count.point, child.size.value, _ => 0);
    }
  }

  lemma RegionRepeats(groups: seq<RawGroup>, k: nat, child: Group)
    requires k < |groups|
    ensures var region := Region(groups, k, child);
      && region.size == child.size && region.terms == child.terms
      && (FixedCount(region.count).Some? <==> FixedCount(child.count).Some?)
      && (FixedCount(child.count).None? ==> region.count == child.count)
  {
    hide SameShaped;
    var m := Collapsed(groups, k, child);
    if m > 1 { assert child.count.n * m > 0; }
  }

  /** Nothing is placed behind a block of unknown or counted extent. */
  lemma NothingFollows(raw: RawGroup, k: nat, st: Parsing, start: int, counts: map<string, int>)
    requires k <= |raw.groups| && !(st.size.Some? && st.terms == [])
    ensures ParseSubs(raw, k, st, start, counts) == if k == |raw.groups| then Ok(st) else Err(GenerationError)
  {
  }

  /** From a point where everything is known, the rest is placed exactly when it is acceptable. */
  lemma {:induction false} SubsAccepted(raw: RawGroup, k: nat, st: Parsing, start: int, counts: map<string, int>)
    requires k <= |raw.groups| && st.size.Some? && st.terms == []
    ensures var r := ParseSubs(raw, k, st, start, counts);
      && (r.Ok? <==> AcceptableFrom(raw, k, counts))
      && (r.Ok? ==> Tells(r.value.size, r.value.terms, if k == |raw.groups| then Known else ExtentOf(raw, counts)))
    decreases raw, |raw.groups| - k
  {
    hide Shape, Region, Collapsed, Advance, ExtentOf, ExtentOfAll, FixedTimes, ParseGroup, Tells, MayFollow;
    if k < |raw.groups| {
      var sub := raw.groups[k];
      AcceptedIff(sub, st.offset, counts);
      var r := ParseGroup(sub, st.offset, counts);
      if r.Ok? {
        var next := Advance(st, Region(raw.groups, k, r.value), start);
        ParsedBare(sub, st.offset, counts);
        AdvanceTells(raw, k, st, r.value, start, counts);
        AfterOne(raw, k, r.value, next, start, counts);
      } else {
        assert !Acceptable(raw.groups[k], counts);
      }
    } else {
      KnownSoFar(st.size, st.terms);
    }
  }

  lemma KnownSoFar(size: Option<int>, terms: Terms)
    requires size.Some? && terms == []
    ensures Tells(size, terms, Known)
  {
  }

  /** The turn after a block was parsed. */
  lemma {:induction false} AfterOne(raw: RawGroup, k: nat, parsed: Group, next: Parsing, start: int, counts: map<string, int>)
    requires k < |raw.groups| && Acceptable(raw.groups[k], counts)
    requires parsed.count == Overridden(raw.groups[k].count, counts) && Tells(parsed.size, parsed.terms, ExtentOf(raw.groups[k], counts))
    requires Tells(next.size, next.terms, ExtentOfAll(raw.groups[k], counts))
    ensures var m := Collapsed(raw.groups, k, parsed);
      var r := ParseSubs(raw, k + m, next, start, counts);
      && (r.Ok? <==> AcceptableFrom(raw, k, counts))
      && (r.Ok? ==> Tells(r.value.size, r.value.terms, ExtentOf(raw, counts)))
    decreases raw, |raw.groups| - k, 0
  {
    hide Shape, Collapsed, ParseGroup, ShapedAlike, Acceptable, ExtentOf, ExtentOfAll, AcceptableFrom;
    var m := Collapsed(raw.groups, k, parsed);
    if ExtentOfAll(raw.groups[k], counts).Known? {
      assert m == 1 by { KnownIsAlone(raw, k, parsed, counts); }
      SubsAccepted(raw, k + 1, next, start, counts);
      LastExtent(raw, k, counts);
      BehindKnown(raw, k, counts);
    } else {
      RegionsAreMaximal(raw.groups, k, parsed);
      NothingFollows(raw, k + m, next, start, counts);
      BehindOpen(raw, k, parsed, counts);
    }
  }

  /** Behind a block of known extent may follow what may follow anyway. */
  lemma BehindKnown(raw: RawGroup, k: nat, counts: map<string, int>)
    requires k < |raw.groups| && Acceptable(raw.groups[k], counts) && ExtentOfAll(raw.groups[k], counts).Known?
    ensures AcceptableFrom(raw, k, counts) <==> AcceptableFrom(raw, k + 1, counts)
  {
    hide Shape, ExtentOf, ExtentOfAll, Acceptable;
  }

  /** Behind any other come only the blocks its region takes. */
  lemma BehindOpen(raw: RawGroup, k: nat, parsed: Group, counts: map<string, int>)
    requires k < |raw.groups| && Acceptable(raw.groups[k], counts) && !ExtentOfAll(raw.groups[k], counts).Known?
    requires parsed.count == Overridden(raw.groups[k].count, counts) && Tells(parsed.size, parsed.terms, ExtentOf(raw.groups[k], counts))
    ensures var end := k + Collapsed(raw.groups, k, parsed);
      && (end == |raw.groups| <==> AcceptableFrom(raw, k, counts))
      && (end == |raw.groups| ==> ExtentOf(raw, counts) == ExtentOfAll(raw.groups[k], counts))
  {
    hide Shape, Collapsed, ShapedAlike, Acceptable, ExtentOf;
    var m := Collapsed(raw.groups, k, parsed);
    RegionsAreMaximal(raw.groups, k, parsed);
    if k + m == |raw.groups| {
      AlikeAccepted(raw, k, m, counts);
    } else {
      assert !MayFollow(raw.groups[k], raw.groups[k + m], counts);
    }
  }

  lemma KnownIsAlone(raw: RawGroup, k: nat, parsed: Group, counts: map<string, int>)
    requires k < |raw.groups| && ExtentOfAll(raw.groups[k], counts).Known?
    requires parsed.count == Overridden(raw.groups[k].count, counts) && Tells(parsed.size, parsed.terms, ExtentOf(raw.groups[k], counts))
    ensures Collapsed(raw.groups, k, parsed) == 1
  {
    hide ExtentOf, Shape;
    RegionsAreMaximal(raw.groups, k, parsed);
  }

  lemma LastExtent(raw: RawGroup, k: nat, counts: map<string, int>)
    requires k < |raw.groups|
    ensures k + 1 == |raw.groups| ==> ExtentOf(raw, counts) == ExtentOfAll(raw.groups[k], counts)
  {
  }

  /** The last blocks, all of one shape. */
  lemma AlikeAccepted(raw: RawGroup, k: nat, m: nat, counts: map<string, int>)
    requires k < |raw.groups| && 0 < m && k + m == |raw.groups| && ShapedAlike(raw.groups, k, k + m) && Acceptable(raw.groups[k], counts)
    requires m > 1 ==> FixedTimes(raw.groups[k], counts) && ExtentOfAll(raw.groups[k], counts).Counted?
    ensures AcceptableFrom(raw, k, counts)
    ensures ExtentOf(raw, counts) == ExtentOfAll(raw.groups[k], counts)
  {
    hide Shape, ExtentOfAll, FixedTimes, Acceptable;
    forall i {:trigger raw.groups[i]} | k <= i < |raw.groups|
      ensures Acceptable(raw.groups[i], counts) && ExtentOfAll(raw.groups[i], counts) == ExtentOfAll(raw.groups[k], counts)
      ensures FixedTimes(raw.groups[i], counts) == FixedTimes(raw.groups[k], counts)
    {
      SameAcceptable(raw.groups[k], raw.groups[i], counts);
      SameExtent(raw.groups[k], raw.groups[i], counts);
    }
    forall i, j | k <= i < j < |raw.groups| ensures MayFollow(raw.groups[i], raw.groups[j], counts) {
      assert Shape(raw.groups[i]) == Shape(raw.groups[k]) && Shape(raw.groups[j]) == Shape(raw.groups[k]);
    }
  }

  /**
   A definition is placed exactly when nothing follows a block of open extent but blocks of its shape that
   one repeat can stand for with it; and what is placed has a size, or registers per count point, exactly
   when its extent says so.
   */
  lemma {:induction false} AcceptedIff(raw: RawGroup, start: int, counts: map<string, int>)
    ensures ParseGroup(raw, start, counts).Ok? <==> Acceptable(raw, counts)
    ensures ParseGroup(raw, start, counts).Ok? ==>
      var g := ParseGroup(raw, start, counts).value; Tells(g.size, g.terms, ExtentOf(raw, counts))
    decreases raw, |raw.groups| + 1, 1
  {
    hide ExtentOf, ParseSubs, PointsSize, FollowFrom;
    SubsAccepted(raw, 0, StartParsing(raw, start), start, counts);
    AcceptableParts(raw, counts);
    if raw.groups == [] { NoneIsKnown(raw, counts); }
  }

  lemma AcceptableParts(raw: RawGroup, counts: map<string, int>)
    ensures Acceptable(raw, counts) <==> AcceptableFrom(raw, 0, counts)
  {
    hide FollowFrom;
  }

  lemma NoneIsKnown(raw: RawGroup, counts: map<string, int>)
    requires raw.groups == []
    ensures ExtentOf(raw, counts).Known?
  {
  }

  // ----- a curve of several regions -----

  /** Any number of regions of one shape, each with a block counted by a point, is accepted. */
  lemma AlikeRegionsAreAccepted(raw: RawGroup, counts: map<string, int>)
    requires raw.groups != [] && Acceptable(raw.groups[0], counts) && ShapedAlike(raw.groups, 0, |raw.groups|)
    requires FixedTimes(raw.groups[0], counts) && ExtentOf(raw.groups[0], counts).Counted?
    ensures forall start :: OneChild(raw, start, counts)
  {
    hide OneChild;
    AlikeAccepted(raw, 0, |raw.groups|, counts);
    AcceptableParts(raw, counts);
    forall start ensures OneChild(raw, start, counts) {
      AcceptedIff(raw, start, counts);
      OneRegion(raw, start, counts);
    }
  }

  /** The definition is placed with a single child that stands for all its blocks. */
  ghost predicate OneChild(raw: RawGroup, start: int, counts: map<string, int>)
    requires raw.groups != [] && FixedTimes(raw.groups[0], counts)
  {
    && ParseGroup(raw, start, counts).Ok?
    && var children := ParseGroup(raw, start, counts).value.children;
    && |children| == 1 && Multiplicity(children[0]) == |raw.groups|
    && children[0].count == Fixed(Overridden(raw.groups[0].count, counts).n * |raw.groups|)
  }

  lemma OneRegion(raw: RawGroup, start: int, counts: map<string, int>)
    requires raw.groups != [] && ShapedAlike(raw.groups, 0, |raw.groups|)
    requires FixedTimes(raw.groups[0], counts) && ExtentOf(raw.groups[0], counts).Counted?
    requires ParseGroup(raw, start, counts).Ok?
    ensures OneChild(raw, start, counts)
  {
    hide Shape, ParseGroup, ExtentOf, Advance, PointsSize;
    var st := StartParsing(raw, start);
    OpenParse(raw, start, counts);
    var parsed := ParseGroup(raw.groups[0], st.offset, counts).value;
    AcceptedIff(raw.groups[0], st.offset, counts);
    ParsedBare(raw.groups[0], st.offset, counts);
    RegionsAreMaximal(raw.groups, 0, parsed);
    var m := Collapsed(raw.groups, 0, parsed);
    LikeTheFirst(raw.groups, m);
    RegionStandsFor(raw, 0, parsed);
    AdvanceAddsChild(st, Region(raw.groups, 0, parsed), start);
  }

  lemma LikeTheFirst(groups: seq<RawGroup>, m: nat)
    requires groups != [] && ShapedAlike(groups, 0, |groups|)
    ensures m < |groups| ==> Shape(groups[m]) == Shape(groups[0])
  {
  }

  /** The first turn of the loop. */
  lemma OpenParse(raw: RawGroup, start: int, counts: map<string, int>)
    requires raw.groups != [] && ParseGroup(raw, start, counts).Ok?
    ensures var st := StartParsing(raw, start);
      var parsed := ParseGroup(raw.groups[0], st.offset, counts);
      && parsed.Ok?
      && ParseSubs(raw, Collapsed(raw.groups, 0, parsed.value), Advance(st, Region(raw.groups, 0, parsed.value), start), start, counts).Ok?
      && ParseGroup(raw, start, counts).value.children ==
         ParseSubs(raw, Collapsed(raw.groups, 0, parsed.value), Advance(st, Region(raw.groups, 0, parsed.value), start), start, counts).value.children
  {
    hide Collapsed, Region, Advance, PointsSize;
  }
}
