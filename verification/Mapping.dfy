/**
 The map of a component with repeating groups
 (`_with_instance_ranges` in src/modbus_connection/model/_component_base.py).

 Its instances are read from its own plan, so their maps are merged into its own; in a
 space one of them maps, those that do not claim what they read, planned together.
 */
module Mapping {
  import opened Wrappers
  import opened Ranges
  import opened Merging
  import opened Planning
  import opened Reading
  import opened Pooling

  /** One part of a component: what maps it, and what it reads. */
  datatype Part = Part(ranges: DeviceRanges, fields: seq<ResolvedField>)

  function RangesOf(parts: seq<Part>): (ranges: seq<DeviceRanges>)
    ensures |ranges| == |parts| && forall i :: 0 <= i < |parts| ==> ranges[i] == parts[i].ranges
  {
    seq(|parts|, i requires 0 <= i < |parts| => parts[i].ranges)
  }

  function In(fields: seq<ResolvedField>, spaces: set<Space>): seq<ResolvedField> {
    if fields == [] then []
    else
      var rest, last := In(fields[..|fields| - 1], spaces), fields[|fields| - 1];
      if last.space in spaces then rest + [last] else rest
  }

  /** What the parts read from the given spaces without a map of their own. */
  function Unclaimed(parts: seq<Part>, spaces: set<Space>): seq<ResolvedField> {
    if parts == [] then []
    else
      var last := parts[|parts| - 1];
      Unclaimed(parts[..|parts| - 1], spaces) + In(Unmapped(last.ranges, last.fields), spaces)
  }

  /** A component's map with its instances' merged in (`_with_instance_ranges`). */
  function WithInstances(own: Part, instances: seq<Part>, maxGap: int, maxSpan: int): Result<DeviceRanges, GroupError> {
    if instances == [] then Ok(own.ranges)
    else
      var parts := [own] + instances;
      var claims := Claimed(Unclaimed(parts, Constrained(RangesOf(parts))), maxGap, maxSpan);
      if claims.Err? then Err(ClaimError)
      else if Merged(RangesOf(parts) + [claims.value]).Ok? then Ok(Merged(RangesOf(parts) + [claims.value]).value)
      else Err(MapsConflict)
  }

  // ----- what the map means -----

  ghost predicate PartSound(p: Part) {
    && Sized(p.fields)
    && forall space :: p.ranges.ForSpace(space).Some? ==> AllUpright(p.ranges.ForSpace(space).value)
  }

  ghost predicate PartsSound(parts: seq<Part>) {
    forall p :: p in parts ==> PartSound(p)
  }

  /** Some part maps the space. */
  ghost predicate SomeMaps(parts: seq<Part>, space: Space) {
    exists p :: p in parts && p.ranges.ForSpace(space).Some?
  }

  /** The map of some part has the address. */
  ghost predicate MapHas(parts: seq<Part>, space: Space, x: int) {
    exists p :: p in parts && p.ranges.ForSpace(space).Some? && Covers(p.ranges.ForSpace(space).value, x)
  }

  /** A part that does not map the space needs the span. */
  ghost predicate BareSpan(parts: seq<Part>, space: Space, s: Range) {
    exists p, f :: p in parts && p.ranges.ForSpace(space).None? && f in p.fields && f.space == space && s in f.Spans()
  }

  /** Exactly the spans that parts without a map for the space need. */
  ghost predicate BareSpans(parts: seq<Part>, space: Space, spans: seq<Range>) {
    forall s :: s in spans <==> BareSpan(parts, space, s)
  }

  /** The address lies in a block of those spans, planned together as if nothing were mapped. */
  ghost predicate ClaimHas(parts: seq<Part>, space: Space, maxGap: int, maxSpan: int, x: int) {
    exists spans :: BareSpans(parts, space, spans) && Planned(spans, None, maxGap, maxSpan).Ok?
                    && Covers(Planned(spans, None, maxGap, maxSpan).value, x)
  }

  /** A part's declaration draws a boundary at the address. */
  ghost predicate PartEdge(parts: seq<Part>, space: Space, edge: int) {
    exists p, r :: p in parts && p.ranges.MapOf(space).Some? && p.ranges.MapOf(space).value.declared
                   && r in p.ranges.MapOf(space).value.ranges && (edge == r.low || edge == r.high + 1)
  }

  /** Two addresses may share a read of the component. */
  ghost predicate Together(parts: seq<Part>, space: Space, maxGap: int, maxSpan: int, x: int, y: int) {
    && (forall z :: x <= z <= y || y <= z <= x ==> MapHas(parts, space, z) || ClaimHas(parts, space, maxGap, maxSpan, z))
    && !(exists edge :: PartEdge(parts, space, edge) && (x < edge <= y || y < edge <= x))
  }

  /** A part without a map for a space that is mapped needs more at once than one read gives. */
  ghost predicate TooWide(parts: seq<Part>, maxSpan: int) {
    exists space, s :: SomeMaps(parts, space) && BareSpan(parts, space, s) && s.Width() > maxSpan
  }

  /** Two parts declare an address that one of them connects to another and the other does not. */
  ghost predicate PartsDisagree(parts: seq<Part>) {
    exists space, p, q, x, y {:trigger Clash(parts, space, p, q, x, y)} :: Clash(parts, space, p, q, x, y)
  }

  ghost predicate Clash(parts: seq<Part>, space: Space, p: Part, q: Part, x: int, y: int) {
    && p in parts && p.ranges.MapOf(space).Some? && p.ranges.MapOf(space).value.declared
    && q in parts && q.ranges.MapOf(space).Some? && q.ranges.MapOf(space).value.declared
    && Covers(p.ranges.MapOf(space).value.ranges, x) && Covers(q.ranges.MapOf(space).value.ranges, x)
    && Connected(p.ranges.MapOf(space).value.ranges, x, y) && !Connected(q.ranges.MapOf(space).value.ranges, x, y)
  }

  // ----- the claims -----

  lemma {:induction false} InMembers(fields: seq<ResolvedField>, spaces: set<Space>, f: ResolvedField)
    ensures f in In(fields, spaces) <==> f in fields && f.space in spaces
  {
    if fields != [] {
      InMembers(fields[..|fields| - 1], spaces, f);
      assert fields == fields[..|fields| - 1] + [fields[|fields| - 1]];
    }
  }

  ghost predicate Claimant(p: Part, spaces: set<Space>, f: ResolvedField) {
    f in p.fields && p.ranges.ForSpace(f.space).None? && f.space in spaces
  }

  lemma {:induction false} UnclaimedMembers(parts: seq<Part>, spaces: set<Space>, f: ResolvedField)
    ensures f in Unclaimed(parts, spaces) <==> exists p :: p in parts && Claimant(p, spaces, f)
  {
    hide In, Unmapped, Claimant;
    if parts != [] {
      var n := |parts| - 1;
      UnclaimedMembers(parts[..n], spaces, f);
      OneClaims(parts[n], spaces, f);
      assert parts == parts[..n] + [parts[n]];
      assert forall p :: p in parts <==> p in parts[..n] || p == parts[n];
    }
  }

  lemma OneClaims(p: Part, spaces: set<Space>, f: ResolvedField)
    ensures f in In(Unmapped(p.ranges, p.fields), spaces) <==> Claimant(p, spaces, f)
  {
    InMembers(Unmapped(p.ranges, p.fields), spaces, f);
    UnmappedMembers(p.ranges, p.fields, f);
  }

  /** In a space some part maps, what is claimed is what the others need. */
  lemma UnclaimedSpans(parts: seq<Part>, spaces: set<Space>, space: Space)
    requires space in spaces
    ensures BareSpans(parts, space, SpansIn(Unclaimed(parts, spaces), space))
  {
    hide Unclaimed, SpansIn;
    var fields := Unclaimed(parts, spaces);
    forall s ensures s in SpansIn(fields, space) <==> BareSpan(parts, space, s) {
      SpansInMembers(fields, space, s);
      if s in SpansIn(fields, space) {
        var f :| f in fields && f.space == space && s in f.Spans();
        UnclaimedMembers(parts, spaces, f);
        var p :| p in parts && Claimant(p, spaces, f);
      }
      if BareSpan(parts, space, s) {
        var p, f :| p in parts && p.ranges.ForSpace(space).None? && f in p.fields && f.space == space && s in f.Spans();
        assert Claimant(p, spaces, f);
        UnclaimedMembers(parts, spaces, f);
      }
    }
  }

  lemma MappedSpaces(parts: seq<Part>, space: Space)
    ensures space in Constrained(RangesOf(parts)) <==> SomeMaps(parts, space)
  {
    var all := RangesOf(parts);
    if space in Constrained(all) {
      var d :| d in all && space in d.maps && d.maps[space].Some?;
      var i :| 0 <= i < |all| && all[i] == d;
      assert parts[i] in parts && parts[i].ranges.ForSpace(space).Some?;
    }
    if SomeMaps(parts, space) {
      var p :| p in parts && p.ranges.ForSpace(space).Some?;
      var i :| 0 <= i < |parts| && parts[i] == p;
      assert all[i] in all && space in all[i].maps && all[i].maps[space].Some?;
    }
  }

  /** What the claims of some parts cover. */
  lemma ClaimsMean(parts: seq<Part>, maxGap: int, maxSpan: int, space: Space)
    requires var spaces := Constrained(RangesOf(parts)); Claimed(Unclaimed(parts, spaces), maxGap, maxSpan).Ok?
    ensures var claim := Claimed(Unclaimed(parts, Constrained(RangesOf(parts))), maxGap, maxSpan).value.MapOf(space);
      && (claim.Some? ==> SomeMaps(parts, space) && !claim.value.declared)
      && (SomeMaps(parts, space) ==> forall x :: (claim.Some? && Covers(claim.value.ranges, x)) <==> ClaimHas(parts, space, maxGap, maxSpan, x))
  {
    hide Unclaimed, SpansIn, Planned;
    var spaces := Constrained(RangesOf(parts));
    var fields := Unclaimed(parts, spaces);
    MappedSpaces(parts, space);
    ClaimedSpace(fields, maxGap, maxSpan, space);
    ClaimedOnlyWhereMapped(parts, spaces, space);
    if space in spaces {
      UnclaimedSpans(parts, spaces, space);
      NoSpansNoSpace(fields, space);
      forall x ensures ClaimHas(parts, space, maxGap, maxSpan, x) <==>
        Planned(SpansIn(fields, space), None, maxGap, maxSpan).Ok? && Covers(Planned(SpansIn(fields, space), None, maxGap, maxSpan).value, x)
      {
        ClaimIsThePlan(parts, space, SpansIn(fields, space), maxGap, maxSpan, x);
      }
      NothingPlannedCovers(maxGap, maxSpan);
    }
  }

  lemma ClaimedOnlyWhereMapped(parts: seq<Part>, spaces: set<Space>, space: Space)
    ensures space in SpacesOf(Unclaimed(parts, spaces)) ==> space in spaces
  {
    hide Unclaimed;
    if space in SpacesOf(Unclaimed(parts, spaces)) {
      var f :| f in Unclaimed(parts, spaces) && f.space == space;
      UnclaimedMembers(parts, spaces, f);
    }
  }

  lemma NoSpansNoSpace(fields: seq<ResolvedField>, space: Space)
    ensures space !in SpacesOf(fields) ==> SpansIn(fields, space) == []
  {
    hide SpansIn;
    if SpansIn(fields, space) != [] {
      SpansInMembers(fields, space, SpansIn(fields, space)[0]);
    }
  }

  lemma NothingPlannedCovers(maxGap: int, maxSpan: int)
    ensures Planned([], None, maxGap, maxSpan) == Ok([])
  {
    var none: seq<Range> := [];
    assert Sort(none) == [] && SortUnique(none) == [];
  }

  lemma ClaimIsThePlan(parts: seq<Part>, space: Space, spans: seq<Range>, maxGap: int, maxSpan: int, x: int)
    requires BareSpans(parts, space, spans)
    ensures ClaimHas(parts, space, maxGap, maxSpan, x) <==>
            Planned(spans, None, maxGap, maxSpan).Ok? && Covers(Planned(spans, None, maxGap, maxSpan).value, x)
  {
    hide Planned;
    if ClaimHas(parts, space, maxGap, maxSpan, x) {
      var other :| BareSpans(parts, space, other) && Planned(other, None, maxGap, maxSpan).Ok?
                   && Covers(Planned(other, None, maxGap, maxSpan).value, x);
      assert forall s :: s in spans <==> s in other;
      PlanBySet(spans, other, None, maxGap, maxSpan);
    }
  }

  // ----- the merge -----

  /** The maps that are merged: the parts' and the claims'. */
  function Pieces(parts: seq<Part>, claims: DeviceRanges): seq<DeviceRanges> {
    RangesOf(parts) + [claims]
  }

  lemma PieceMembers(parts: seq<Part>, claims: DeviceRanges, d: DeviceRanges)
    ensures d in Pieces(parts, claims) <==> d == claims || exists p :: p in parts && d == p.ranges
  {
    var all := RangesOf(parts);
    if d in all {
      var i :| 0 <= i < |all| && all[i] == d;
      assert parts[i] in parts;
    }
    if p :| p in parts && d == p.ranges {
      var i :| 0 <= i < |parts| && parts[i] == p;
      assert all[i] == d;
    }
  }

  /** The claims merged into the maps of these parts. */
  ghost predicate AreClaims(parts: seq<Part>, claims: DeviceRanges, maxGap: int, maxSpan: int) {
    forall space {:trigger claims.MapOf(space)} ::
      var claim := claims.MapOf(space);
      && (claim.Some? ==> SomeMaps(parts, space) && !claim.value.declared && AllUpright(claim.value.ranges))
      && (SomeMaps(parts, space) ==> forall x :: (claim.Some? && Covers(claim.value.ranges, x)) <==> ClaimHas(parts, space, maxGap, maxSpan, x))
  }

  lemma AllCovered(parts: seq<Part>, claims: DeviceRanges, space: Space, maxGap: int, maxSpan: int, x: int)
    requires AreClaims(parts, claims, maxGap, maxSpan) && SomeMaps(parts, space)
    ensures var all := Pieces(parts, claims);
      Covered(PartsFor(all, space, true) + PartsFor(all, space, false), x) <==>
      MapHas(parts, space, x) || ClaimHas(parts, space, maxGap, maxSpan, x)
  {
    hide Pieces, ClaimHas, PartsFor;
    var all := Pieces(parts, claims);
    var maps := PartsFor(all, space, true) + PartsFor(all, space, false);
    CoveredSplit(PartsFor(all, space, true), PartsFor(all, space, false), x);
    if Covered(maps, x) {
      var ranges :| ranges in maps && Covers(ranges, x);
      var declared := ranges in PartsFor(all, space, true);
      PartsForMembers(all, space, declared, ranges);
      var d :| d in all && d.MapOf(space) == Some(SpaceMap(ranges, declared));
      PieceMembers(parts, claims, d);
      if d != claims {
        var p :| p in parts && d == p.ranges;
        assert p.ranges.ForSpace(space) == Some(ranges);
      }
    }
    if MapHas(parts, space, x) {
      var p :| p in parts && p.ranges.ForSpace(space).Some? && Covers(p.ranges.ForSpace(space).value, x);
      OneCovers(parts, claims, p.ranges, space, x);
    }
    if ClaimHas(parts, space, maxGap, maxSpan, x) {
      assert claims.MapOf(space).Some?;
      OneCovers(parts, claims, claims, space, x);
    }
  }

  lemma OneCovers(parts: seq<Part>, claims: DeviceRanges, d: DeviceRanges, space: Space, x: int)
    requires d == claims || exists p :: p in parts && d == p.ranges
    requires d.MapOf(space).Some? && Covers(d.MapOf(space).value.ranges, x)
    ensures var all := Pieces(parts, claims);
      Covered(PartsFor(all, space, true) + PartsFor(all, space, false), x)
  {
    hide Pieces, PartsFor;
    var all, one := Pieces(parts, claims), d.MapOf(space).value;
    PieceMembers(parts, claims, d);
    PartsForMembers(all, space, one.declared, one.ranges);
    CoveredSplit(PartsFor(all, space, true), PartsFor(all, space, false), x);
  }

  lemma EdgesAreOfParts(parts: seq<Part>, claims: DeviceRanges, space: Space, maxGap: int, maxSpan: int, edge: int)
    requires AreClaims(parts, claims, maxGap, maxSpan)
    ensures IsEdge(PartsFor(Pieces(parts, claims), space, true), edge) <==> PartEdge(parts, space, edge)
  {
    hide Pieces, ClaimHas, PartsFor, SomeMaps;
    var all := Pieces(parts, claims);
    if IsEdge(PartsFor(all, space, true), edge) {
      var ranges, r :| ranges in PartsFor(all, space, true) && r in ranges && (edge == r.low || edge == r.high + 1);
      var p := DeclaredPart(parts, claims, space, maxGap, maxSpan, ranges);
    }
    if PartEdge(parts, space, edge) {
      var p, r :| p in parts && p.ranges.MapOf(space).Some? && p.ranges.MapOf(space).value.declared
                  && r in p.ranges.MapOf(space).value.ranges && (edge == r.low || edge == r.high + 1);
      DeclaresPart(parts, claims, space, p);
    }
  }

  /** Only parts declare. */
  lemma DeclaredPart(parts: seq<Part>, claims: DeviceRanges, space: Space, maxGap: int, maxSpan: int, ranges: seq<Range>) returns (p: Part)
    requires AreClaims(parts, claims, maxGap, maxSpan) && ranges in PartsFor(Pieces(parts, claims), space, true)
    ensures p in parts && p.ranges.MapOf(space) == Some(SpaceMap(ranges, true))
  {
    hide Pieces, ClaimHas, PartsFor, SomeMaps;
    var all := Pieces(parts, claims);
    PartsForMembers(all, space, true, ranges);
    var d :| d in all && d.MapOf(space) == Some(SpaceMap(ranges, true));
    PieceMembers(parts, claims, d);
    p :| p in parts && d == p.ranges;
  }

  lemma DeclaresPart(parts: seq<Part>, claims: DeviceRanges, space: Space, p: Part)
    requires p in parts && p.ranges.MapOf(space).Some? && p.ranges.MapOf(space).value.declared
    ensures p.ranges.MapOf(space).value.ranges in PartsFor(Pieces(parts, claims), space, true)
  {
    hide Pieces, PartsFor;
    PieceMembers(parts, claims, p.ranges);
    PartsForMembers(Pieces(parts, claims), space, true, p.ranges.MapOf(space).value.ranges);
  }

  lemma DisagreeIsClash(parts: seq<Part>, claims: DeviceRanges, maxGap: int, maxSpan: int)
    requires AreClaims(parts, claims, maxGap, maxSpan)
    ensures SomeDisagree(Pieces(parts, claims)) <==> PartsDisagree(parts)
  {
    hide Pieces, ClaimHas, PartsFor, SomeMaps, AreClaims;
    var all := Pieces(parts, claims);
    if SomeDisagree(all) {
      var space :| Disagree(PartsFor(all, space, true));
      var declared := PartsFor(all, space, true);
      var m, n, x, y :| m in declared && n in declared && Covers(m, x) && Covers(n, x) && Connected(m, x, y) && !Connected(n, x, y);
      var p := DeclaredPart(parts, claims, space, maxGap, maxSpan, m);
      var q := DeclaredPart(parts, claims, space, maxGap, maxSpan, n);
      assert Clash(parts, space, p, q, x, y);
    }
    if PartsDisagree(parts) {
      var space, p, q, x, y :| Clash(parts, space, p, q, x, y);
      DeclaresPart(parts, claims, space, p);
      DeclaresPart(parts, claims, space, q);
      assert Disagree(PartsFor(all, space, true));
    }
  }

  lemma PiecesUpright(parts: seq<Part>, claims: DeviceRanges, maxGap: int, maxSpan: int)
    requires PartsSound(parts) && AreClaims(parts, claims, maxGap, maxSpan)
    ensures DevicesUpright(Pieces(parts, claims))
  {
    hide Pieces, ClaimHas;
    forall d, space | d in Pieces(parts, claims) && d.MapOf(space).Some? ensures AllUpright(d.MapOf(space).value.ranges) {
      PieceMembers(parts, claims, d);
      if d != claims {
        var p :| p in parts && d == p.ranges;
        assert p.ranges.ForSpace(space).Some?;
      }
    }
  }

  lemma PiecesConstrain(parts: seq<Part>, claims: DeviceRanges, maxGap: int, maxSpan: int, space: Space)
    requires AreClaims(parts, claims, maxGap, maxSpan)
    ensures space in Constrained(Pieces(parts, claims)) <==> SomeMaps(parts, space)
  {
    hide Pieces, ClaimHas;
    var all := Pieces(parts, claims);
    if space in Constrained(all) {
      var d :| d in all && space in d.maps && d.maps[space].Some?;
      PieceMembers(parts, claims, d);
      if d == claims {
        assert claims.MapOf(space).Some?;
      } else {
        var p :| p in parts && d == p.ranges;
        assert p.ranges.ForSpace(space).Some?;
      }
    }
    if SomeMaps(parts, space) {
      var p :| p in parts && p.ranges.ForSpace(space).Some?;
      PieceMembers(parts, claims, p.ranges);
      assert space in p.ranges.maps && p.ranges.maps[space].Some?;
    }
  }

  // ----- the whole -----

  lemma TheClaims(parts: seq<Part>, maxGap: int, maxSpan: int)
    requires PartsSound(parts) && 0 <= maxGap
    ensures var claims := Claimed(Unclaimed(parts, Constrained(RangesOf(parts))), maxGap, maxSpan);
      && (claims.Err? <==> TooWide(parts, maxSpan))
      && (claims.Ok? ==> AreClaims(parts, claims.value, maxGap, maxSpan))
  {
    hide Unclaimed, SpansIn, ClaimHas, SomeMaps, BareSpan;
    var spaces := Constrained(RangesOf(parts));
    var fields := Unclaimed(parts, spaces);
    ClaimsFail(parts, maxGap, maxSpan);
    if Claimed(fields, maxGap, maxSpan).Ok? {
      var claims := Claimed(fields, maxGap, maxSpan).value;
      forall space {:trigger claims.MapOf(space)}
        ensures var claim := claims.MapOf(space);
          && (claim.Some? ==> SomeMaps(parts, space) && !claim.value.declared && AllUpright(claim.value.ranges))
          && (SomeMaps(parts, space) ==> forall x :: (claim.Some? && Covers(claim.value.ranges, x)) <==> ClaimHas(parts, space, maxGap, maxSpan, x))
      {
        ClaimsMean(parts, maxGap, maxSpan, space);
        ClaimUpright(parts, maxGap, maxSpan, space);
      }
    }
  }

  lemma ClaimantsSized(parts: seq<Part>, spaces: set<Space>)
    requires PartsSound(parts)
    ensures Sized(Unclaimed(parts, spaces))
  {
    hide Unclaimed;
    forall f | f in Unclaimed(parts, spaces) ensures f.count > 0 {
      UnclaimedMembers(parts, spaces, f);
    }
  }

  lemma ClaimUpright(parts: seq<Part>, maxGap: int, maxSpan: int, space: Space)
    requires PartsSound(parts) && 0 <= maxGap && Claimed(Unclaimed(parts, Constrained(RangesOf(parts))), maxGap, maxSpan).Ok?
    ensures var claim := Claimed(Unclaimed(parts, Constrained(RangesOf(parts))), maxGap, maxSpan).value.MapOf(space);
      claim.Some? ==> AllUpright(claim.value.ranges)
  {
    hide Unclaimed, SpansIn, Planned;
    var spaces := Constrained(RangesOf(parts));
    var fields := Unclaimed(parts, spaces);
    ClaimedSpace(fields, maxGap, maxSpan, space);
    if space in SpacesOf(fields) {
      var spans := SpansIn(fields, space);
      ClaimantsSized(parts, spaces);
      SpansUpright(fields, space);
      PlanIsAdmissible(spans, None, maxGap, maxSpan);
      forall b | b in Planned(spans, None, maxGap, maxSpan).value ensures b.Upright() {
        assert BetweenSpans(b, spans);
        var t :| t in spans && t.low == b.low && t.Within(b);
      }
    }
  }

  lemma ClaimsFail(parts: seq<Part>, maxGap: int, maxSpan: int)
    ensures Claimed(Unclaimed(parts, Constrained(RangesOf(parts))), maxGap, maxSpan).Err? <==> TooWide(parts, maxSpan)
  {
    hide Unclaimed, SpansIn, SomeMaps, BareSpan;
    var spaces := Constrained(RangesOf(parts));
    var fields := Unclaimed(parts, spaces);
    if Claimed(fields, maxGap, maxSpan).Err? {
      var space :| space in SpacesOf(fields) && PlannedIn(fields, NO_MAPS, space, maxGap, maxSpan).Err?;
      ClaimedOnlyWhereMapped(parts, spaces, space);
      MappedSpaces(parts, space);
      UnclaimedSpans(parts, spaces, space);
      var s :| s in SpansIn(fields, space) && s.Width() > maxSpan;
    }
    if TooWide(parts, maxSpan) {
      var space, s :| SomeMaps(parts, space) && BareSpan(parts, space, s) && s.Width() > maxSpan;
      MappedSpaces(parts, space);
      UnclaimedSpans(parts, spaces, space);
      assert s in SpansIn(fields, space);
      SpansInMembers(fields, space, s);
      assert space in SpacesOf(fields) && PlannedIn(fields, NO_MAPS, space, maxGap, maxSpan).Err?;
    }
  }

  /**
   When a component with instances has a map: exactly when no part without a map needs more at once than
   one read gives in a space that is mapped, and no two parts' declarations disagree.
   */
  lemma MapFailsIff(own: Part, instances: seq<Part>, maxGap: int, maxSpan: int)
    requires PartsSound([own] + instances) && 0 <= maxGap && instances != []
    ensures WithInstances(own, instances, maxGap, maxSpan).Err? <==>
            TooWide([own] + instances, maxSpan) || PartsDisagree([own] + instances)
  {
    hide TooWide, PartsDisagree, Unclaimed, Claimed, Constrained, RangesOf, PartsSound, AreClaims, MergedAs;
    var parts := [own] + instances;
    TheClaims(parts, maxGap, maxSpan);
    var claims := Claimed(Unclaimed(parts, Constrained(RangesOf(parts))), maxGap, maxSpan);
    if claims.Ok? {
      MergeFails(parts, claims.value, maxGap, maxSpan);
    }
  }

  lemma MergeFails(parts: seq<Part>, claims: DeviceRanges, maxGap: int, maxSpan: int)
    requires PartsSound(parts) && AreClaims(parts, claims, maxGap, maxSpan)
    ensures Merged(RangesOf(parts) + [claims]).Err? <==> PartsDisagree(parts)
  {
    hide Merged, PartsDisagree, AreClaims, PartsSound, RangesOf, SomeDisagree;
    var all := Pieces(parts, claims);
    PiecesUpright(parts, claims, maxGap, maxSpan);
    MergeFailsIff(all);
    DisagreeIsClash(parts, claims, maxGap, maxSpan);
  }

  /**
   What that map means: it constrains exactly the spaces some part maps, and there two addresses share a run
   exactly when everything between them is mapped by a part or lies in the blocks that the parts without a
   map are read in together, and no declared edge separates them.
   */
  lemma MapMeaning(own: Part, instances: seq<Part>, maxGap: int, maxSpan: int, space: Space)
    requires PartsSound([own] + instances) && 0 <= maxGap && instances != []
    requires WithInstances(own, instances, maxGap, maxSpan).Ok?
    ensures var parts, map_ := [own] + instances, WithInstances(own, instances, maxGap, maxSpan).value.ForSpace(space);
      && (map_.Some? <==> SomeMaps(parts, space))
      && (map_.Some? ==> Ordered(map_.value)
                         && forall x, y :: SameRun(map_.value, x, y) <==> Together(parts, space, maxGap, maxSpan, x, y))
  {
    hide Unclaimed, Claimed, Constrained, RangesOf, PartsSound, AreClaims, Together, SomeMaps, Merged;
    var parts := [own] + instances;
    TheClaims(parts, maxGap, maxSpan);
    var claims := Claimed(Unclaimed(parts, Constrained(RangesOf(parts))), maxGap, maxSpan).value;
    MergeMeans(parts, claims, maxGap, maxSpan, space);
  }

  lemma MergeMeans(parts: seq<Part>, claims: DeviceRanges, maxGap: int, maxSpan: int, space: Space)
    requires PartsSound(parts) && AreClaims(parts, claims, maxGap, maxSpan) && Merged(RangesOf(parts) + [claims]).Ok?
    ensures var map_ := Merged(RangesOf(parts) + [claims]).value.ForSpace(space);
      && (map_.Some? <==> SomeMaps(parts, space))
      && (map_.Some? ==> Ordered(map_.value)
                         && forall x, y :: SameRun(map_.value, x, y) <==> Together(parts, space, maxGap, maxSpan, x, y))
  {
    hide Merged, AreClaims, PartsSound, RangesOf, Disagree, PartsFor, SomeMaps, Together, Constrained, SameRun, Ordered;
    var all := Pieces(parts, claims);
    PiecesUpright(parts, claims, maxGap, maxSpan);
    MergedMeaning(all);
    PiecesConstrain(parts, claims, maxGap, maxSpan, space);
    assert Merged(all).value.MapOf(space).Some? ==> space in Merged(all).value.maps.Keys;
    if SomeMaps(parts, space) {
      forall x, y ensures SameRun(Merged(all).value.MapOf(space).value.ranges, x, y) <==> Together(parts, space, maxGap, maxSpan, x, y) {
        TogetherMeansReachable(parts, claims, space, maxGap, maxSpan, x, y);
      }
    }
  }

  lemma TogetherMeansReachable(parts: seq<Part>, claims: DeviceRanges, space: Space, maxGap: int, maxSpan: int, x: int, y: int)
    requires AreClaims(parts, claims, maxGap, maxSpan) && SomeMaps(parts, space)
    ensures var all := Pieces(parts, claims);
      var declared, claimed := PartsFor(all, space, true), PartsFor(all, space, false);
      Reachable(declared + claimed, x, y) && !EdgeBetween(declared, x, y) <==> Together(parts, space, maxGap, maxSpan, x, y)
  {
    hide Pieces, PartsFor, AreClaims, SomeMaps, MapHas, ClaimHas, PartEdge, Covered, IsEdge;
    forall z { AllCovered(parts, claims, space, maxGap, maxSpan, z); }
    forall e { EdgesAreOfParts(parts, claims, space, maxGap, maxSpan, e); }
  }

  /** In particular every register a part without a map needs is covered, where the space is mapped at all. */
  lemma NothingReadIsLost(own: Part, instances: seq<Part>, maxGap: int, maxSpan: int, space: Space, s: Range, x: int)
    requires PartsSound([own] + instances) && 0 <= maxGap && instances != []
    requires WithInstances(own, instances, maxGap, maxSpan).Ok?
    requires SomeMaps([own] + instances, space) && BareSpan([own] + instances, space, s) && s.Has(x)
    ensures var map_ := WithInstances(own, instances, maxGap, maxSpan).value.ForSpace(space);
      map_.Some? && Covers(map_.value, x)
  {
    hide WithInstances, Together, PartsSound;
    var parts := [own] + instances;
    MapMeaning(own, instances, maxGap, maxSpan, space);
    MapFailsIff(own, instances, maxGap, maxSpan);
    BareIsClaimed(parts, maxGap, maxSpan, space, s, x);
    assert Together(parts, space, maxGap, maxSpan, x, x) by { AloneTogether(parts, maxGap, maxSpan, space, x); }
    var map_ := WithInstances(own, instances, maxGap, maxSpan).value.ForSpace(space);
    assert SameRun(map_.value, x, x);
  }

  lemma AloneTogether(parts: seq<Part>, maxGap: int, maxSpan: int, space: Space, x: int)
    requires ClaimHas(parts, space, maxGap, maxSpan, x)
    ensures Together(parts, space, maxGap, maxSpan, x, x)
  {
    hide ClaimHas, PartEdge;
  }

  lemma BareIsClaimed(parts: seq<Part>, maxGap: int, maxSpan: int, space: Space, s: Range, x: int)
    requires PartsSound(parts) && 0 <= maxGap && !TooWide(parts, maxSpan)
    requires SomeMaps(parts, space) && BareSpan(parts, space, s) && s.Has(x)
    ensures ClaimHas(parts, space, maxGap, maxSpan, x)
  {
    hide Unclaimed, SpansIn, BareSpan, SomeMaps, PartsSound;
    var spaces := Constrained(RangesOf(parts));
    var fields := Unclaimed(parts, spaces);
    var spans := SpansIn(fields, space);
    MappedSpaces(parts, space);
    UnclaimedSpans(parts, spaces, space);
    ClaimantsSized(parts, spaces);
    SpansUpright(fields, space);
    assert forall t :: t in spans ==> t.Width() <= maxSpan;
    PlanIsAdmissible(spans, None, maxGap, maxSpan);
    var blocks := Planned(spans, None, maxGap, maxSpan).value;
    assert Housed(s, blocks);
    var b :| b in blocks && s.Within(b);
    assert Covers(blocks, x);
  }
}
