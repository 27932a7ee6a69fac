/**
 Pooling the reads of several components on one unit
 (src/modbus_connection/model/component_group.py).
 */
module Pooling {
  import opened Wrappers
  import opened Ranges
  import opened Merging
  import opened Planning
  import opened Reading

  /** What a group needs of a member: its resolved map, its read targets and its limits. */
  datatype Member = Member(ranges: DeviceRanges, fields: seq<ResolvedField>, maxGap: int, maxSpan: int)

  datatype GroupError = ClaimError | MapsConflict | SpansDiffer

  /** The width cap the members have to share (`_shared`); an empty group has the default. */
  function SharedSpan(members: seq<Member>): Result<int, GroupError> {
    if members == [] then Ok(MAX_SPAN)
    else if forall m :: m in members ==> m.maxSpan == members[0].maxSpan then Ok(members[0].maxSpan)
    else Err(SpansDiffer)
  }

  /** The cap is the one every member has; members that differ have none. */
  lemma SharedSpanIs(members: seq<Member>, cap: int)
    ensures SharedSpan(members) == Ok(cap) <==> (forall m :: m in members ==> m.maxSpan == cap) && (members == [] ==> cap == MAX_SPAN)
  {
    if members != [] { assert members[0] in members; }
  }

  /** The fields read from a space the map leaves unconstrained (`unmapped_items`). */
  function Unmapped(ranges: DeviceRanges, fields: seq<ResolvedField>): seq<ResolvedField> {
    if fields == [] then []
    else
      var rest := Unmapped(ranges, fields[..|fields| - 1]);
      var last := fields[|fields| - 1];
      if ranges.ForSpace(last.space).None? then rest + [last] else rest
  }

  const NO_MAPS := DeviceRanges(map[])

  /** The addresses these fields cover when read on their own, as claims (`claimed_ranges`). */
  function Claimed(fields: seq<ResolvedField>, maxGap: int, maxSpan: int): Result<DeviceRanges, PlanError> {
    match Build(fields, NO_MAPS, maxGap, maxSpan)
    case Err(e) => Err(e)
    case Ok(blocks) => Ok(DeviceRanges(map space | space in blocks :: Some(SpaceMap(blocks[space], false))))
  }

  function ClaimOf(m: Member): Result<DeviceRanges, PlanError> {
    Claimed(Unmapped(m.ranges, m.fields), m.maxGap, m.maxSpan)
  }

  /** The map of each of the first `n` members, followed by its claim. */
  function Parts(members: seq<Member>, n: nat): Result<seq<DeviceRanges>, GroupError>
    requires n <= |members|
  {
    if n == 0 then Ok([])
    else
      var parts, claim := Parts(members, n - 1), ClaimOf(members[n - 1]);
      if parts.Err? then parts
      else if claim.Err? then Err(ClaimError)
      else Ok(parts.value + [members[n - 1].ranges, claim.value])
  }

  function AllParts(members: seq<Member>): Result<seq<DeviceRanges>, GroupError> {
    Parts(members, |members|)
  }

  function GroupRanges(members: seq<Member>): Result<DeviceRanges, GroupError> {
    var parts := AllParts(members);
    if parts.Err? then Err(parts.error)
    else if Merged(parts.value).Ok? then Ok(Merged(parts.value).value)
    else Err(MapsConflict)
  }

  method RangesBySpace(members: seq<Member>) returns (r: Result<DeviceRanges, GroupError>)
    ensures r == GroupRanges(members)
  {
    var parts: seq<DeviceRanges> := [];
    for i := 0 to |members|
      invariant Parts(members, i) == Ok(parts)
    {
      var claim := ClaimOf(members[i]);
      if claim.Err? {
        PartsFail(members, i + 1, |members|);
        return Err(ClaimError);
      }
      parts := parts + [members[i].ranges, claim.value];
    }
    var merged := Merge(parts);
    r := if merged.Ok? then Ok(merged.value) else Err(MapsConflict);
  }

  lemma {:induction false} PartsFail(members: seq<Member>, i: nat, n: nat)
    requires i <= n <= |members| && Parts(members, i) == Err(ClaimError)
    ensures Parts(members, n) == Err(ClaimError)
    decreases n
  {
    if i < n { PartsFail(members, i, n - 1); }
  }

  function FieldsOfAll(members: seq<Member>): seq<ResolvedField> {
    if members == [] then [] else FieldsOfAll(members[..|members| - 1]) + members[|members| - 1].fields
  }

  /** The plan of the whole group: gap bridging is switched off, since every space read has a map. */
  function Pooled(members: seq<Member>, ranges: DeviceRanges, maxSpan: int): Result<map<Space, seq<Range>>, PlanError> {
    Build(FieldsOfAll(members), ranges, 0, maxSpan)
  }

  /** The member's own plan, as when it is refreshed by itself. */
  function Solo(m: Member): Result<map<Space, seq<Range>>, PlanError> {
    Build(m.fields, m.ranges, m.maxGap, m.maxSpan)
  }

  ghost predicate Sound(m: Member) {
    && Sized(m.fields) && 0 <= m.maxGap
    && forall space :: m.ranges.ForSpace(space).Some? ==> AllUpright(m.ranges.ForSpace(space).value)
  }

  ghost predicate AllSound(members: seq<Member>) {
    forall m :: m in members ==> Sound(m)
  }

  /** A member's map, or the blocks of its own plan where it has no map, cover the address. */
  ghost predicate Reads(m: Member, space: Space, x: int) {
    match m.ranges.ForSpace(space)
    case Some(ranges) => Covers(ranges, x)
    case None =>
      PlannedIn(m.fields, m.ranges, space, m.maxGap, m.maxSpan).Ok? && space in SpacesOf(m.fields) &&
      Covers(PlannedIn(m.fields, m.ranges, space, m.maxGap, m.maxSpan).value, x)
  }

  /** Some member reads or declared the address. */
  ghost predicate SomeReads(members: seq<Member>, space: Space, x: int) {
    exists m :: m in members && Reads(m, space, x)
  }

  /** A member's declaration draws a boundary at this address. */
  ghost predicate Declares(m: Member, space: Space, edge: int) {
    && m.ranges.MapOf(space).Some? && m.ranges.MapOf(space).value.declared
    && exists r :: r in m.ranges.MapOf(space).value.ranges && (edge == r.low || edge == r.high + 1)
  }

  ghost predicate SomeDeclares(members: seq<Member>, space: Space, edge: int) {
    exists m :: m in members && Declares(m, space, edge)
  }

  // ----- what the parts of a group say -----

  lemma {:induction false} UnmappedMembers(ranges: DeviceRanges, fields: seq<ResolvedField>, f: ResolvedField)
    ensures f in Unmapped(ranges, fields) <==> f in fields && ranges.ForSpace(f.space).None?
  {
    if fields != [] {
      UnmappedMembers(ranges, fields[..|fields| - 1], f);
      assert fields == fields[..|fields| - 1] + [fields[|fields| - 1]];
    }
  }

  lemma {:induction false} UnmappedSpans(ranges: DeviceRanges, fields: seq<ResolvedField>, space: Space)
    requires ranges.ForSpace(space).None?
    ensures SpansIn(Unmapped(ranges, fields), space) == SpansIn(fields, space)
  {
    if fields != [] {
      var n := |fields| - 1;
      UnmappedSpans(ranges, fields[..n], space);
      var rest := Unmapped(ranges, fields[..n]);
      assert (rest + [fields[n]])[..|rest|] == rest;
    }
  }

  lemma UnmappedSpaces(ranges: DeviceRanges, fields: seq<ResolvedField>, space: Space)
    ensures space in SpacesOf(Unmapped(ranges, fields)) <==> space in SpacesOf(fields) && ranges.ForSpace(space).None?
  {
    var un := Unmapped(ranges, fields);
    if space in SpacesOf(un) {
      var f :| f in un && f.space == space;
      UnmappedMembers(ranges, fields, f);
    }
    if space in SpacesOf(fields) && ranges.ForSpace(space).None? {
      var f :| f in fields && f.space == space;
      UnmappedMembers(ranges, fields, f);
    }
  }

  lemma ClaimedSpace(fields: seq<ResolvedField>, maxGap: int, maxSpan: int, space: Space)
    requires Claimed(fields, maxGap, maxSpan).Ok?
    ensures var claim := Claimed(fields, maxGap, maxSpan).value.MapOf(space);
      if space in SpacesOf(fields)
      then Planned(SpansIn(fields, space), None, maxGap, maxSpan).Ok?
           && claim == Some(SpaceMap(Planned(SpansIn(fields, space), None, maxGap, maxSpan).value, false))
      else claim.None?
  {
    assert NO_MAPS.ForSpace(space) == None;
    if space in SpacesOf(fields) {
      assert PlannedIn(fields, NO_MAPS, space, maxGap, maxSpan).Ok?;
    }
  }

  /** A claim covers exactly the blocks the member would read alone in the spaces it has no map for. */
  lemma ClaimIsSolo(m: Member, space: Space)
    requires ClaimOf(m).Ok?
    ensures var claim := ClaimOf(m).value.MapOf(space);
      if space in SpacesOf(m.fields) && m.ranges.ForSpace(space).None?
      then PlannedIn(m.fields, m.ranges, space, m.maxGap, m.maxSpan).Ok?
           && claim == Some(SpaceMap(PlannedIn(m.fields, m.ranges, space, m.maxGap, m.maxSpan).value, false))
      else claim.None?
  {
    UnmappedSpaces(m.ranges, m.fields, space);
    ClaimedSpace(Unmapped(m.ranges, m.fields), m.maxGap, m.maxSpan, space);
    if m.ranges.ForSpace(space).None? {
      UnmappedSpans(m.ranges, m.fields, space);
    }
  }

  /** The device map is the map or the claim of the member. */
  ghost predicate IsPartOf(d: DeviceRanges, m: Member) {
    ClaimOf(m).Ok? && (d == m.ranges || d == ClaimOf(m).value)
  }

  lemma {:induction false} PartsMembers(members: seq<Member>, n: nat, d: DeviceRanges)
    requires n <= |members| && Parts(members, n).Ok?
    ensures d in Parts(members, n).value <==> exists i :: 0 <= i < n && IsPartOf(d, members[i])
    ensures forall i :: 0 <= i < n ==> ClaimOf(members[i]).Ok?
  {
    hide ClaimOf;
    if n > 0 {
      PartsMembers(members, n - 1, d);
      var last := members[n - 1];
      assert d in Parts(members, n).value <==> d in Parts(members, n - 1).value || IsPartOf(d, last);
    }
  }

  lemma PartsHold(members: seq<Member>, d: DeviceRanges)
    requires AllParts(members).Ok?
    ensures d in AllParts(members).value <==> exists m :: m in members && IsPartOf(d, m)
    ensures forall m :: m in members ==> ClaimOf(m).Ok?
  {
    PartsMembers(members, |members|, d);
    if m :| m in members && IsPartOf(d, m) {
      var i :| 0 <= i < |members| && members[i] == m;
    }
    forall m | m in members ensures ClaimOf(m).Ok? {
      var i :| 0 <= i < |members| && members[i] == m;
    }
  }

  /** Blocks planned without a map are not reversed. */
  lemma SoloBlocksUpright(m: Member, space: Space)
    requires Sound(m) && m.ranges.ForSpace(space).None?
    requires PlannedIn(m.fields, m.ranges, space, m.maxGap, m.maxSpan).Ok?
    ensures AllUpright(PlannedIn(m.fields, m.ranges, space, m.maxGap, m.maxSpan).value)
  {
    var spans := SpansIn(m.fields, space);
    SpansUpright(m.fields, space);
    PlanIsAdmissible(spans, None, m.maxGap, m.maxSpan);
    forall b | b in Planned(spans, None, m.maxGap, m.maxSpan).value ensures b.Upright() {
      assert BetweenSpans(b, spans);
      var t :| t in spans && t.low == b.low && t.Within(b);
    }
  }

  lemma PartsAreUpright(members: seq<Member>)
    requires AllSound(members) && AllParts(members).Ok?
    ensures DevicesUpright(AllParts(members).value)
  {
    var parts := AllParts(members).value;
    forall d, space | d in parts && d.MapOf(space).Some? ensures AllUpright(d.MapOf(space).value.ranges) {
      PartsHold(members, d);
      var m :| m in members && IsPartOf(d, m);
      if d == m.ranges {
        assert m.ranges.ForSpace(space).Some?;
      } else {
        ClaimIsSolo(m, space);
        SoloBlocksUpright(m, space);
      }
    }
  }

  /** The parts of one space cover what some member reads or declared, and no more. */
  lemma PartsCoverReads(members: seq<Member>, space: Space, x: int)
    requires AllParts(members).Ok?
    ensures var parts := AllParts(members).value;
      Covered(PartsFor(parts, space, true) + PartsFor(parts, space, false), x) <==> SomeReads(members, space, x)
  {
    var parts := AllParts(members).value;
    var maps := PartsFor(parts, space, true) + PartsFor(parts, space, false);
    if Covered(maps, x) {
      var ranges :| ranges in maps && Covers(ranges, x);
      var declared := ranges in PartsFor(parts, space, true);
      PartsForMembers(parts, space, declared, ranges);
      var d :| d in parts && d.MapOf(space) == Some(SpaceMap(ranges, declared));
      PartsHold(members, d);
      var m :| m in members && IsPartOf(d, m);
      ClaimIsSolo(m, space);
      assert Reads(m, space, x);
    }
    if SomeReads(members, space, x) {
      var m :| m in members && Reads(m, space, x);
      PartOf(members, m, space, x);
    }
  }

  lemma PartOf(members: seq<Member>, m: Member, space: Space, x: int)
    requires AllParts(members).Ok? && m in members && Reads(m, space, x)
    ensures var parts := AllParts(members).value;
      Covered(PartsFor(parts, space, true) + PartsFor(parts, space, false), x)
  {
    var parts := AllParts(members).value;
    PartsHold(members, m.ranges);
    ClaimIsSolo(m, space);
    var d := if m.ranges.ForSpace(space).Some? then m.ranges else ClaimOf(m).value;
    PartsHold(members, d);
    var one := d.MapOf(space).value;
    PartsForMembers(parts, space, one.declared, one.ranges);
    assert Covers(one.ranges, x);
    CoveredSplit(PartsFor(parts, space, true), PartsFor(parts, space, false), x);
  }

  // ----- when a group can be made -----

  /** The member cannot be read alone: it leaves a space unmapped where a field needs more than one read gives. */
  ghost predicate TooWideAlone(m: Member) {
    exists f :: f in m.fields && m.ranges.ForSpace(f.space).None? && f.count > m.maxSpan
  }

  /** Two members declare an address that one of them connects to another and the other does not. */
  ghost predicate Clash(members: seq<Member>, space: Space, m: Member, n: Member, x: int, y: int) {
    && m in members && m.ranges.MapOf(space).Some? && m.ranges.MapOf(space).value.declared
    && n in members && n.ranges.MapOf(space).Some? && n.ranges.MapOf(space).value.declared
    && Covers(m.ranges.MapOf(space).value.ranges, x) && Covers(n.ranges.MapOf(space).value.ranges, x)
    && Connected(m.ranges.MapOf(space).value.ranges, x, y) && !Connected(n.ranges.MapOf(space).value.ranges, x, y)
  }

  ghost predicate MembersDisagree(members: seq<Member>) {
    exists space, m, n, x, y {:trigger Clash(members, space, m, n, x, y)} :: Clash(members, space, m, n, x, y)
  }

  lemma ClaimFails(m: Member)
    requires Sized(m.fields)
    ensures ClaimOf(m).Err? <==> TooWideAlone(m)
  {
    hide Unmapped, SpansIn;
    var fields := Unmapped(m.ranges, m.fields);
    if ClaimOf(m).Err? {
      var space :| space in SpacesOf(fields) && PlannedIn(fields, NO_MAPS, space, m.maxGap, m.maxSpan).Err?;
      var s :| s in SpansIn(fields, space) && s.Width() > m.maxSpan;
      SpansInMembers(fields, space, s);
      var f :| f in fields && f.space == space && s in f.Spans();
      UnmappedMembers(m.ranges, m.fields, f);
    }
    if f :| f in m.fields && m.ranges.ForSpace(f.space).None? && f.count > m.maxSpan {
      var s := f.Span();
      assert s in f.Spans() && s.Width() > m.maxSpan;
      UnmappedMembers(m.ranges, m.fields, f);
      SpansInMembers(fields, f.space, s);
      assert f.space in SpacesOf(fields) && PlannedIn(fields, NO_MAPS, f.space, m.maxGap, m.maxSpan).Err?;
    }
  }

  lemma {:induction false} PartsFailIff(members: seq<Member>, n: nat)
    requires n <= |members|
    ensures Parts(members, n).Err? <==> exists i :: 0 <= i < n && ClaimOf(members[i]).Err?
  {
    hide ClaimOf;
    if n > 0 { PartsFailIff(members, n - 1); }
  }

  /** Members' declarations are those of the group's parts: a claim declares nothing. */
  lemma DeclaredByMember(members: seq<Member>, space: Space, ranges: seq<Range>)
    requires AllParts(members).Ok?
    ensures ranges in PartsFor(AllParts(members).value, space, true)
       <==> exists m :: m in members && m.ranges.MapOf(space) == Some(SpaceMap(ranges, true))
  {
    hide AllParts, ClaimOf;
    var parts := AllParts(members).value;
    PartsForMembers(parts, space, true, ranges);
    if ranges in PartsFor(parts, space, true) {
      var d :| d in parts && d.MapOf(space) == Some(SpaceMap(ranges, true));
      PartsHold(members, d);
      var m :| m in members && IsPartOf(d, m);
      ClaimIsSolo(m, space);
    }
    if m :| m in members && m.ranges.MapOf(space) == Some(SpaceMap(ranges, true)) {
      PartsHold(members, m.ranges);
    }
  }

  ghost predicate SomeDisagree(devices: seq<DeviceRanges>) {
    exists space :: Disagree(PartsFor(devices, space, true))
  }

  lemma MergeFailsIff(devices: seq<DeviceRanges>)
    requires DevicesUpright(devices)
    ensures Merged(devices).Err? <==> SomeDisagree(devices)
  {
    hide Merged, Disagree, DevicesUpright;
    MergedMeaning(devices);
  }

  lemma DisagreeIsClash(members: seq<Member>)
    requires AllParts(members).Ok?
    ensures SomeDisagree(AllParts(members).value) <==> MembersDisagree(members)
  {
    hide AllParts, PartsFor;
    var parts := AllParts(members).value;
    if space :| Disagree(PartsFor(parts, space, true)) {
      var declared := PartsFor(parts, space, true);
      var a, b, x, y :| a in declared && b in declared && Covers(a, x) && Covers(b, x) && Connected(a, x, y) && !Connected(b, x, y);
      DeclaredByMember(members, space, a);
      DeclaredByMember(members, space, b);
      var m :| m in members && m.ranges.MapOf(space) == Some(SpaceMap(a, true));
      var n :| n in members && n.ranges.MapOf(space) == Some(SpaceMap(b, true));
      assert Clash(members, space, m, n, x, y);
    }
    if MembersDisagree(members) {
      var space, m, n, x, y :| Clash(members, space, m, n, x, y);
      DeclaredByMember(members, space, m.ranges.MapOf(space).value.ranges);
      DeclaredByMember(members, space, n.ranges.MapOf(space).value.ranges);
      assert Disagree(PartsFor(parts, space, true));
    }
  }

  /**
   A group can be made exactly when each member can be read alone where it has no map, and no two members'
   declarations disagree about an address both cover; the error says which of the two it was.
   */
  lemma GroupIsMadeIff(members: seq<Member>)
    requires AllSound(members)
    ensures GroupRanges(members) == Err(ClaimError) <==> exists m :: m in members && TooWideAlone(m)
    ensures GroupRanges(members) == Err(MapsConflict) <==> (forall m :: m in members ==> !TooWideAlone(m)) && MembersDisagree(members)
    ensures GroupRanges(members).Ok? <==> (forall m :: m in members ==> !TooWideAlone(m)) && !MembersDisagree(members)
  {
    hide TooWideAlone, MembersDisagree, ClaimOf, Merged, DevicesUpright, Parts, SomeDisagree;
    PartsFailIff(members, |members|);
    forall m | m in members ensures ClaimOf(m).Err? <==> TooWideAlone(m) {
      assert Sound(m);
      ClaimFails(m);
    }
    assert AllParts(members).Err? <==> exists m :: m in members && TooWideAlone(m);
    PartsErr(members, |members|);
    if AllParts(members).Ok? {
      PartsAreUpright(members);
      MergeFailsIff(AllParts(members).value);
      DisagreeIsClash(members);
    }
  }

  lemma {:induction false} PartsErr(members: seq<Member>, n: nat)
    requires n <= |members|
    ensures Parts(members, n).Err? ==> Parts(members, n) == Err(ClaimError)
  {
    hide ClaimOf;
    if n > 0 { PartsErr(members, n - 1); }
  }

  /** The edges that cut a pooled map are the edges members declared. */
  lemma EdgesAreDeclared(members: seq<Member>, space: Space, edge: int)
    requires AllParts(members).Ok?
    ensures IsEdge(PartsFor(AllParts(members).value, space, true), edge) <==> SomeDeclares(members, space, edge)
  {
    hide AllParts, ClaimOf;
    var parts := AllParts(members).value;
    if IsEdge(PartsFor(parts, space, true), edge) {
      var ranges, r :| ranges in PartsFor(parts, space, true) && r in ranges && (edge == r.low || edge == r.high + 1);
      PartsForMembers(parts, space, true, ranges);
      var d :| d in parts && d.MapOf(space) == Some(SpaceMap(ranges, true));
      PartsHold(members, d);
      var m :| m in members && IsPartOf(d, m);
      ClaimIsSolo(m, space);
      assert Declares(m, space, edge);
    }
    if SomeDeclares(members, space, edge) {
      var m :| m in members && Declares(m, space, edge);
      PartsHold(members, m.ranges);
      PartsForMembers(parts, space, true, m.ranges.MapOf(space).value.ranges);
    }
  }

  /** Two addresses may share a pooled read. */
  ghost predicate Poolable(members: seq<Member>, space: Space, x: int, y: int) {
    && (forall z :: x <= z <= y || y <= z <= x ==> SomeReads(members, space, z))
    && !(exists edge :: SomeDeclares(members, space, edge) && (x < edge <= y || y < edge <= x))
  }

  /** The group's map says exactly which addresses may share a pooled read. */
  lemma GroupMapMeaning(members: seq<Member>, space: Space)
    requires AllSound(members) && GroupRanges(members).Ok?
    ensures var map_ := GroupRanges(members).value.ForSpace(space);
      && (map_.Some? ==> Ordered(map_.value)
                         && forall x, y :: SameRun(map_.value, x, y) <==> Poolable(members, space, x, y))
      && (space in SpacesOf(FieldsOfAll(members)) ==> map_.Some?)
  {
    var parts := AllParts(members).value;
    var declared, claimed := PartsFor(parts, space, true), PartsFor(parts, space, false);
    PartsAreUpright(members);
    MergedMeaning(parts);
    ConstrainedHasParts(parts, space);
    if space in Constrained(parts) {
      assert MergeOf(Merged(parts).value.MapOf(space).value, declared, claimed);
      forall x, y ensures SameRun(Merged(parts).value.MapOf(space).value.ranges, x, y) <==> Poolable(members, space, x, y) {
        PoolableMeansReachable(members, space, x, y);
      }
    }
    if space in SpacesOf(FieldsOfAll(members)) {
      EveryReadSpaceHasAMap(members, space);
    }
  }

  lemma PoolableMeansReachable(members: seq<Member>, space: Space, x: int, y: int)
    requires AllParts(members).Ok?
    ensures var parts := AllParts(members).value;
      var declared, claimed := PartsFor(parts, space, true), PartsFor(parts, space, false);
      Reachable(declared + claimed, x, y) && !EdgeBetween(declared, x, y) <==> Poolable(members, space, x, y)
  {
    forall z { PartsCoverReads(members, space, z); }
    forall e { EdgesAreDeclared(members, space, e); }
  }

  lemma {:induction false} FieldsOfAllMembers(members: seq<Member>, f: ResolvedField)
    ensures f in FieldsOfAll(members) <==> exists m :: m in members && f in m.fields
  {
    if members != [] {
      var n := |members| - 1;
      FieldsOfAllMembers(members[..n], f);
      assert members == members[..n] + [members[n]];
      assert forall m :: m in members <==> m in members[..n] || m == members[n];
    }
  }

  lemma EveryReadSpaceHasAMap(members: seq<Member>, space: Space)
    requires AllParts(members).Ok? && space in SpacesOf(FieldsOfAll(members))
    ensures space in Constrained(AllParts(members).value)
  {
    var f :| f in FieldsOfAll(members) && f.space == space;
    FieldsOfAllMembers(members, f);
    var m :| m in members && f in m.fields;
    assert space in SpacesOf(m.fields);
    PartsHold(members, m.ranges);
    ClaimIsSolo(m, space);
    var d := if m.ranges.ForSpace(space).Some? then m.ranges else ClaimOf(m).value;
    PartsHold(members, d);
    PartConstrains(AllParts(members).value, d, space);
  }

  lemma PartConstrains(parts: seq<DeviceRanges>, d: DeviceRanges, space: Space)
    requires d in parts && d.MapOf(space).Some?
    ensures space in Constrained(parts)
  {
    assert space in d.maps && d.maps[space].Some?;
  }

  // ----- main results -----

  /**
   Pooling never widens a read: a pooled block holds only addresses some member
   declared or would read alone, and crosses no edge any member declared.
   */
  lemma PoolingNeverWidens(members: seq<Member>, maxSpan: int, space: Space, b: Range)
    requires AllSound(members) && GroupRanges(members).Ok?
    requires Pooled(members, GroupRanges(members).value, maxSpan).Ok?
    requires space in Pooled(members, GroupRanges(members).value, maxSpan).value
    requires b in Pooled(members, GroupRanges(members).value, maxSpan).value[space]
    ensures GroupRanges(members).value.ForSpace(space).Some?
    ensures forall x :: b.Has(x) ==> SomeReads(members, space, x)
    ensures forall edge :: SomeDeclares(members, space, edge) ==> !(b.low < edge <= b.high)
  {
    hide SomeDeclares, SomeReads, GroupRanges, FieldsOfAll, SpansIn, Planned;
    var fields := FieldsOfAll(members);
    var map_ := GroupRanges(members).value.ForSpace(space);
    GroupMapMeaning(members, space);
    AllFieldsSized(members);
    BlockInOneRun(fields, map_.value, maxSpan, space, b);
    assert Poolable(members, space, b.low, b.high);
  }

  lemma BlockInOneRun(fields: seq<ResolvedField>, ranges: seq<Range>, maxSpan: int, space: Space, b: Range)
    requires Sized(fields) && Planned(SpansIn(fields, space), Some(ranges), 0, maxSpan).Ok?
    requires b in Planned(SpansIn(fields, space), Some(ranges), 0, maxSpan).value
    ensures b.Upright() && SameRun(ranges, b.low, b.high)
  {
    var spans := SpansIn(fields, space);
    SpansUpright(fields, space);
    PlanIsAdmissible(spans, Some(ranges), 0, maxSpan);
    assert Respects(b, spans, Some(ranges), 0, maxSpan) && BetweenSpans(b, spans);
    var t :| t in spans && t.low == b.low && t.Within(b);
    var r :| r in ranges && b.Within(r);
    assert r.Has(b.low) && r.Has(b.high);
  }

  lemma AllFieldsSized(members: seq<Member>)
    requires AllSound(members)
    ensures Sized(FieldsOfAll(members))
  {
    forall f | f in FieldsOfAll(members) ensures f.count > 0 {
      FieldsOfAllMembers(members, f);
    }
  }

  /** A declared edge falls strictly inside the span. */
  ghost predicate EdgeInside(members: seq<Member>, space: Space, s: Range) {
    exists edge :: SomeDeclares(members, space, edge) && s.low < edge <= s.high
  }

  /** A declared edge falls strictly inside a span that a field needs. */
  ghost predicate EdgeInsideField(members: seq<Member>) {
    exists f, s :: f in FieldsOfAll(members) && s in f.Spans() && EdgeInside(members, f.space, s)
  }

  /**
   Pooling fails for one reason only: when the group can be made, its maps merging and its
   members sharing a width cap, and every member can be read alone, the pooled plan is refused exactly
   when some declared edge falls strictly inside a span a member reads.
   */
  lemma PoolingFailsOnlyOnEdges(members: seq<Member>, maxSpan: int)
    requires AllSound(members) && GroupRanges(members).Ok? && SharedSpan(members) == Ok(maxSpan)
    requires forall m :: m in members ==> Solo(m).Ok?
    ensures Pooled(members, GroupRanges(members).value, maxSpan).Err? <==> EdgeInsideField(members)
  {
    var fields := FieldsOfAll(members);
    var ranges := GroupRanges(members).value;
    AllFieldsSized(members);
    forall space | space in SpacesOf(fields)
      ensures PlannedIn(fields, ranges, space, 0, maxSpan).Ok? <==> !EdgeInSpace(members, space)
    {
      assert forall m :: m in members ==> m.maxSpan == maxSpan;
      PoolingInSpace(members, maxSpan, space);
    }
    EdgeInsideSomeSpace(members);
  }

  ghost predicate EdgeInSpace(members: seq<Member>, space: Space) {
    exists s :: s in SpansIn(FieldsOfAll(members), space) && EdgeInside(members, space, s)
  }

  lemma EdgeInsideSomeSpace(members: seq<Member>)
    ensures EdgeInsideField(members) <==>
            exists space :: space in SpacesOf(FieldsOfAll(members)) && EdgeInSpace(members, space)
  {
    var fields := FieldsOfAll(members);
    if EdgeInsideField(members) {
      var f, s :| f in fields && s in f.Spans() && EdgeInside(members, f.space, s);
      SpansInMembers(fields, f.space, s);
      assert EdgeInSpace(members, f.space);
    }
    if space :| space in SpacesOf(fields) && EdgeInSpace(members, space) {
      var s :| s in SpansIn(fields, space) && EdgeInside(members, space, s);
      SpansInMembers(fields, space, s);
    }
  }

  lemma PoolingInSpace(members: seq<Member>, maxSpan: int, space: Space)
    requires AllSound(members) && GroupRanges(members).Ok?
    requires forall m :: m in members ==> m.maxSpan == maxSpan && Solo(m).Ok?
    requires space in SpacesOf(FieldsOfAll(members))
    ensures PlannedIn(FieldsOfAll(members), GroupRanges(members).value, space, 0, maxSpan).Ok? <==>
            !EdgeInSpace(members, space)
  {
    hide SomeDeclares, SomeReads, Solo, Poolable, GroupRanges, FieldsOfAll, SpansIn, Fits;
    var spans := SpansIn(FieldsOfAll(members), space);
    GroupMapMeaning(members, space);
    var map_ := GroupRanges(members).value.ForSpace(space).value;
    OrderedIsSorted(map_);
    forall s | s in spans ensures s.Width() <= maxSpan && (Fits(s, map_) <==> !EdgeInside(members, space, s)) {
      SpanReadAlone(members, maxSpan, space, s);
      SpanFitsUnlessCut(members, space, s, map_);
    }
  }

  lemma SpanFitsUnlessCut(members: seq<Member>, space: Space, s: Range, map_: seq<Range>)
    requires Valid(map_) && s.Upright()
    requires SameRun(map_, s.low, s.high) <==> Poolable(members, space, s.low, s.high)
    requires forall x :: s.Has(x) ==> SomeReads(members, space, x)
    ensures Fits(s, map_) <==> !EdgeInside(members, space, s)
  {
    FitsInOne(s, map_);
    SpanInRun(map_, s);
  }

  lemma SpanInRun(ranges: seq<Range>, s: Range)
    requires s.Upright()
    ensures (exists r :: r in ranges && s.Within(r)) <==> SameRun(ranges, s.low, s.high)
  {
    if r :| r in ranges && s.Within(r) {
      assert r.Has(s.low) && r.Has(s.high);
    }
    if SameRun(ranges, s.low, s.high) {
      var r :| r in ranges && r.Has(s.low) && r.Has(s.high);
      assert s.Within(r);
    }
  }

  /** What a member reads alone is covered, and no wider than the cap. */
  lemma SpanReadAlone(members: seq<Member>, maxSpan: int, space: Space, s: Range)
    requires AllSound(members)
    requires forall m :: m in members ==> m.maxSpan == maxSpan && Solo(m).Ok?
    requires s in SpansIn(FieldsOfAll(members), space)
    ensures s.Upright() && s.Width() <= maxSpan
    ensures forall x :: s.Has(x) ==> SomeReads(members, space, x)
  {
    SpansInMembers(FieldsOfAll(members), space, s);
    var f :| f in FieldsOfAll(members) && f.space == space && s in f.Spans();
    FieldsOfAllMembers(members, f);
    var m :| m in members && f in m.fields;
    SpansInMembers(m.fields, space, s);
    SpansUpright(m.fields, space);
    assert PlannedIn(m.fields, m.ranges, space, m.maxGap, m.maxSpan).Ok?;
    SoloCovers(m, space, s);
  }

  lemma SoloCovers(m: Member, space: Space, s: Range)
    requires Sound(m) && s in SpansIn(m.fields, space) && space in SpacesOf(m.fields)
    requires PlannedIn(m.fields, m.ranges, space, m.maxGap, m.maxSpan).Ok?
    ensures s.Width() <= m.maxSpan
    ensures forall x :: s.Has(x) ==> Reads(m, space, x)
  {
    var spans := SpansIn(m.fields, space);
    SpansUpright(m.fields, space);
    PlanIsAdmissible(spans, m.ranges.ForSpace(space), m.maxGap, m.maxSpan);
    var blocks := PlannedIn(m.fields, m.ranges, space, m.maxGap, m.maxSpan).value;
    assert Housed(s, blocks);
    var b :| b in blocks && s.Within(b);
    assert Respects(b, spans, m.ranges.ForSpace(space), m.maxGap, m.maxSpan);
    forall x | s.Has(x) ensures Reads(m, space, x) {
      assert b.Has(x);
    }
  }
}
