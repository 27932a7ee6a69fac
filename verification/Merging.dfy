/**
 Merging the readable maps of the parts of one device
 (`DeviceRanges` in src/modbus_connection/model/_ranges.py).

 The meaning of a merged map is stated in `MergeOf` without mention of sorting,
 joining or cutting. It fixes the map, so every law of merging below follows
 from comparing meanings.
 */
module Merging {
  import opened Wrappers
  import opened Ranges

  // ----- device maps -----

  datatype Space = Holding | Input | Coil | Discrete

  /** The readable ranges of one address space; a claim records reads instead of a declaration. */
  datatype SpaceMap = SpaceMap(ranges: seq<Range>, declared: bool)

  function ShiftAll(ranges: seq<Range>, k: int): (t: seq<Range>)
    ensures |t| == |ranges| && forall i :: 0 <= i < |t| ==> t[i] == ranges[i].Shift(k)
  {
    seq(|ranges|, i requires 0 <= i < |ranges| => ranges[i].Shift(k))
  }

  function ShiftMap(m: Option<SpaceMap>, k: int): Option<SpaceMap> {
    if m.None? then None else Some(SpaceMap(ShiftAll(m.value.ranges, k), m.value.declared))
  }

  /** A space mapped to `None`, or absent, is unconstrained. */
  datatype DeviceRanges = DeviceRanges(maps: map<Space, Option<SpaceMap>>) {
    function MapOf(space: Space): Option<SpaceMap> {
      if space in maps then maps[space] else None
    }

    function ForSpace(space: Space): Option<seq<Range>> {
      if MapOf(space).Some? then Some(MapOf(space).value.ranges) else None
    }

    function Shift(k: int): DeviceRanges {
      DeviceRanges(map space | space in maps :: ShiftMap(maps[space], k))
    }
  }

  // ----- merging the maps of one space -----

  function CoalescedEach(maps: seq<seq<Range>>): (t: seq<seq<Range>>)
    ensures |t| == |maps| && forall i :: 0 <= i < |t| ==> t[i] == Coalesced(maps[i])
  {
    seq(|maps|, i requires 0 <= i < |maps| => Coalesced(maps[i]))
  }

  function EdgesOf(ranges: seq<Range>): seq<int> {
    if ranges == [] then []
    else EdgesOf(ranges[..|ranges| - 1]) + [ranges[|ranges| - 1].low, ranges[|ranges| - 1].high + 1]
  }

  datatype Conflict = Conflict

  /** The runs every declaration agrees on, before claims are added. */
  function Joint(declared: seq<seq<Range>>): seq<Range> {
    SortUnique(Flatten(CoalescedEach(declared)))
  }

  function MergedSpace(declared: seq<seq<Range>>, claimed: seq<seq<Range>>): Result<SpaceMap, Conflict> {
    if !Valid(Joint(declared)) then Err(Conflict)
    else
      Ok(SpaceMap(CutRuns(Coalesced(Joint(declared) + Flatten(claimed)), SortInts(EdgesOf(Flatten(declared)))),
                  declared != []))
  }

  /** The inner loop: cut one run at every declared edge inside it. */
  method CutRunLoop(run: Range, cuts: seq<int>) returns (runs: seq<Range>)
    ensures runs == CutRun(run, cuts)
  {
    runs := [];
    var start := run.low;
    for j := 0 to |cuts|
      invariant Cutting(runs, start) == CutAll(run, cuts, j)
    {
      var cut := cuts[j];
      if start < cut <= run.high {
        runs := runs + [Range(start, cut - 1)];
        start := cut;
      }
    }
    runs := runs + [Range(start, run.high)];
  }

  method CutRunsLoop(coalesced: seq<Range>, cuts: seq<int>) returns (runs: seq<Range>)
    ensures runs == CutRuns(coalesced, cuts)
  {
    hide CutRun;
    runs := [];
    ghost var parts := CutEach(coalesced, cuts);
    for i := 0 to |coalesced|
      invariant runs == FlattenUpTo(parts, i)
    {
      var pieces := CutRunLoop(coalesced[i], cuts);
      runs := runs + pieces;
    }
  }

  ghost predicate AllMapsUpright(maps: seq<seq<Range>>) {
    forall m :: m in maps ==> AllUpright(m)
  }

  /** Some map covers the address. */
  ghost predicate Covered(maps: seq<seq<Range>>, x: int) {
    exists m :: m in maps && Covers(m, x)
  }

  /** A declared range starts at, or ends just before, this address. */
  ghost predicate IsEdge(declared: seq<seq<Range>>, edge: int) {
    exists m, r :: m in declared && r in m && (edge == r.low || edge == r.high + 1)
  }

  /**
   Two declarations disagree about an address both cover: one of them reaches
   some other address without a break and the other does not.
   */
  ghost predicate Disagree(declared: seq<seq<Range>>) {
    exists m, n, x, y ::
      && m in declared && n in declared && Covers(m, x) && Covers(n, x)
      && Connected(m, x, y) && !Connected(n, x, y)
  }

  lemma FlattenHolds(maps: seq<seq<Range>>, r: Range)
    ensures r in Flatten(maps) <==> exists m :: m in maps && r in m
  {
    FlattenMembers(maps, |maps|, r);
    if m :| m in maps && r in m {
      var i :| 0 <= i < |maps| && maps[i] == m;
    }
  }

  lemma {:induction false} EdgesOfMembers(ranges: seq<Range>, e: int)
    ensures e in EdgesOf(ranges) <==> exists r :: r in ranges && (e == r.low || e == r.high + 1)
  {
    if ranges != [] {
      var n := |ranges| - 1;
      EdgesOfMembers(ranges[..n], e);
      assert ranges == ranges[..n] + [ranges[n]];
      assert forall r :: r in ranges <==> r in ranges[..n] || r == ranges[n];
    }
  }

  lemma FlattenCovers(maps: seq<seq<Range>>, x: int)
    ensures Covers(Flatten(maps), x) <==> Covered(maps, x)
  {
    if Covers(Flatten(maps), x) {
      var r :| r in Flatten(maps) && r.Has(x);
      FlattenHolds(maps, r);
    }
    if Covered(maps, x) {
      var m :| m in maps && Covers(m, x);
      var r :| r in m && r.Has(x);
      FlattenHolds(maps, r);
    }
  }

  lemma EdgesAre(declared: seq<seq<Range>>, e: int)
    ensures e in SortInts(EdgesOf(Flatten(declared))) <==> IsEdge(declared, e)
  {
    var flat := Flatten(declared);
    SortIntsAscends(EdgesOf(flat));
    EdgesOfMembers(flat, e);
    if e in EdgesOf(flat) {
      var r :| r in flat && (e == r.low || e == r.high + 1);
      FlattenHolds(declared, r);
    }
    if IsEdge(declared, e) {
      var m, r :| m in declared && r in m && (e == r.low || e == r.high + 1);
      FlattenHolds(declared, r);
    }
  }

  lemma JointMembers(declared: seq<seq<Range>>, r: Range)
    ensures r in Joint(declared) <==> exists m :: m in declared && r in Coalesced(m)
  {
    SortUniqueSorts(Flatten(CoalescedEach(declared)));
    var each := CoalescedEach(declared);
    FlattenHolds(each, r);
    if r in Flatten(each) {
      var c :| c in each && r in c;
      var i :| 0 <= i < |each| && each[i] == c;
      assert declared[i] in declared;
    }
    if m :| m in declared && r in Coalesced(m) {
      var i :| 0 <= i < |declared| && declared[i] == m;
      assert each[i] in each;
    }
  }

  /** The run of a coalesced map that holds an address reaches exactly what is connected to it. */
  lemma RunAt(m: seq<Range>, r: Range, x: int, y: int)
    requires AllUpright(m) && r in Coalesced(m) && r.Has(x)
    ensures r.Has(y) <==> Connected(m, x, y)
  {
    CoalesceMeaning(m);
    var c := Coalesced(m);
    assert SameRun(c, x, y) <==> Connected(m, x, y);
    if SameRun(c, x, y) {
      var q :| q in c && q.Has(x) && q.Has(y);
      OrderedIsDisjoint(c, r, q, x);
    }
  }

  lemma DisagreementOverlaps(declared: seq<seq<Range>>)
    requires AllMapsUpright(declared) && Disagree(declared)
    ensures !Valid(Joint(declared))
  {
    var m, n, x, y :| m in declared && n in declared && Covers(m, x) && Covers(n, x)
      && Connected(m, x, y) && !Connected(n, x, y);
    CoalesceMeaning(m);
    CoalesceMeaning(n);
    assert Covers(Coalesced(m), x) && Covers(Coalesced(n), x);
    var r :| r in Coalesced(m) && r.Has(x);
    var q :| q in Coalesced(n) && q.Has(x);
    RunAt(m, r, x, y);
    RunAt(n, q, x, y);
    JointMembers(declared, r);
    JointMembers(declared, q);
    if Valid(Joint(declared)) { ValidHolder(Joint(declared), r, q, x); }
  }

  lemma OverlapDisagrees(declared: seq<seq<Range>>, r: Range, q: Range, x: int)
    requires AllMapsUpright(declared)
    requires r in Joint(declared) && q in Joint(declared) && r != q && r.Has(x) && q.Has(x)
    ensures Disagree(declared)
  {
    JointMembers(declared, r);
    JointMembers(declared, q);
    var m :| m in declared && r in Coalesced(m);
    var n :| n in declared && q in Coalesced(n);
    RunsDisagree(declared, m, n, r, q, x);
  }

  lemma RunsDisagree(declared: seq<seq<Range>>, m: seq<Range>, n: seq<Range>, r: Range, q: Range, x: int)
    requires m in declared && n in declared && AllUpright(m) && AllUpright(n)
    requires r in Coalesced(m) && q in Coalesced(n) && r != q && r.Has(x) && q.Has(x)
    ensures Disagree(declared)
  {
    var y := if r.low != q.low then Min(r.low, q.low) else Max(r.high, q.high);
    assert r.Has(y) != q.Has(y);
    RunAt(m, r, x, x);
    RunAt(n, q, x, x);
    assert Connected(m, x, x) && Connected(n, x, x);
    assert Covers(m, x) && Covers(n, x);
    RunAt(m, r, x, y);
    RunAt(n, q, x, y);
  }

  function Min(a: int, b: int): int {
    if a < b then a else b
  }

  /** Merging raises exactly when two declarations disagree about an address both cover. */
  lemma MergeRaisesIff(declared: seq<seq<Range>>, claimed: seq<seq<Range>>)
    requires AllMapsUpright(declared)
    ensures MergedSpace(declared, claimed).Err? <==> Disagree(declared)
  {
    var joint := Joint(declared);
    if Disagree(declared) {
      DisagreementOverlaps(declared);
    } else {
      SortUniqueSorts(Flatten(CoalescedEach(declared)));
      forall r | r in joint ensures r.Upright() {
        JointMembers(declared, r);
        var m :| m in declared && r in Coalesced(m);
        CoalesceMeaning(m);
      }
      forall i, j, x | 0 <= i < j < |joint| && joint[i].Has(x) ensures !joint[j].Has(x) {
        if joint[j].Has(x) { OverlapDisagrees(declared, joint[i], joint[j], x); }
      }
      DisjointIsValid(joint);
    }
  }

  // ----- what a merged map means -----

  /** What cutting makes of each run. */
  ghost predicate CutFrom(parts: seq<seq<Range>>, runs: seq<Range>, cuts: seq<int>) {
    && |parts| == |runs|
    && forall i :: 0 <= i < |parts| ==> CutPart(parts[i], runs[i], cuts)
  }

  ghost predicate CutPart(part: seq<Range>, run: Range, cuts: seq<int>) {
    && Ordered(part) && CutsAt(part, run, cuts, |cuts|)
    && forall q :: q in part ==> q.Within(run)
  }

  /** Cutting keeps the order, and leaves a pair in one run just where it was and no cut falls. */
  lemma CutRunsCut(runs: seq<Range>, cuts: seq<int>)
    requires Separated(runs) && Ascending(cuts)
    ensures Ordered(CutRuns(runs, cuts))
    ensures forall x, y :: SameRun(CutRuns(runs, cuts), x, y) <==> SameRun(runs, x, y) && !Severed(cuts, x, y)
  {
    var parts := CutEach(runs, cuts);
    forall i | 0 <= i < |runs| ensures CutPart(parts[i], runs[i], cuts) {
      assert runs[i] in runs;
      PiecesOfRun(runs[i], cuts);
    }
    PartsInOrder(parts, runs, cuts);
    forall x, y { PartsCut(parts, runs, cuts, x, y); }
  }

  lemma PartsInOrder(parts: seq<seq<Range>>, runs: seq<Range>, cuts: seq<int>)
    requires Separated(runs) && CutFrom(parts, runs, cuts)
    ensures Ordered(Flatten(parts))
  {
    forall i | 0 <= i < |parts| ensures Ordered(parts[i]) && forall q :: q in parts[i] ==> q.Within(runs[i]) {
      assert CutPart(parts[i], runs[i], cuts);
    }
    forall i, j, r, q | 0 <= i < j < |parts| && r in parts[i] && q in parts[j] ensures r.high < q.low {
      assert r.Within(runs[i]) && q.Within(runs[j]) && runs[i].high + 1 < runs[j].low;
    }
    FlattenOrdered(parts, |parts|);
  }

  lemma PartsCut(parts: seq<seq<Range>>, runs: seq<Range>, cuts: seq<int>, x: int, y: int)
    requires CutFrom(parts, runs, cuts)
    ensures SameRun(Flatten(parts), x, y) <==> SameRun(runs, x, y) && !Severed(cuts, x, y)
  {
    FlattenRuns(parts, |parts|, x, y);
    if SameRun(runs, x, y) && !Severed(cuts, x, y) {
      var i :| 0 <= i < |runs| && runs[i].Has(x) && runs[i].Has(y);
      assert CutPart(parts[i], runs[i], cuts);
    }
    if RunInPart(parts, |parts|, x, y) {
      var i :| 0 <= i < |parts| && SameRun(parts[i], x, y);
      assert CutPart(parts[i], runs[i], cuts) && runs[i] in runs;
    }
  }

  lemma PiecesOfRun(run: Range, cuts: seq<int>)
    requires run.Upright() && Ascending(cuts)
    ensures CutPart(CutRun(run, cuts), run, cuts)
  {
    CutRunCuts(run, cuts, |cuts|);
    forall q | q in CutRun(run, cuts) ensures q.Within(run) {
      assert SameRun(CutRun(run, cuts), q.low, q.high) by { assert q.Has(q.low) && q.Has(q.high); }
    }
  }

  /** Everything from `x` to `y` is covered by some map. */
  ghost predicate Reachable(maps: seq<seq<Range>>, x: int, y: int) {
    forall z :: x <= z <= y || y <= z <= x ==> Covered(maps, z)
  }

  /** A declared edge separates the two addresses. */
  ghost predicate EdgeBetween(declared: seq<seq<Range>>, x: int, y: int) {
    exists edge :: IsEdge(declared, edge) && (x < edge <= y || y < edge <= x)
  }

  /** The meaning of a merged map, with no mention of how it is computed. */
  ghost predicate MergeOf(m: SpaceMap, declared: seq<seq<Range>>, claimed: seq<seq<Range>>) {
    && Ordered(m.ranges)
    && (m.declared <==> declared != [])
    && (forall x, y :: SameRun(m.ranges, x, y) <==>
          Reachable(declared + claimed, x, y) && !EdgeBetween(declared, x, y))
  }

  lemma JointCovers(declared: seq<seq<Range>>, x: int)
    requires AllMapsUpright(declared)
    ensures Covers(Joint(declared), x) <==> Covered(declared, x)
  {
    if Covers(Joint(declared), x) {
      var r :| r in Joint(declared) && r.Has(x);
      JointMembers(declared, r);
      var m :| m in declared && r in Coalesced(m);
      CoalesceMeaning(m);
      assert Covers(Coalesced(m), x);
    }
    if Covered(declared, x) {
      var m :| m in declared && Covers(m, x);
      CoalesceMeaning(m);
      assert Covers(Coalesced(m), x);
      var r :| r in Coalesced(m) && r.Has(x);
      JointMembers(declared, r);
    }
  }

  lemma PartsCover(declared: seq<seq<Range>>, claimed: seq<seq<Range>>, x: int)
    requires AllMapsUpright(declared)
    ensures Covers(Joint(declared) + Flatten(claimed), x) <==> Covered(declared + claimed, x)
  {
    CoversSplit(Joint(declared), Flatten(claimed), x);
    JointCovers(declared, x);
    FlattenCovers(claimed, x);
    CoveredSplit(declared, claimed, x);
  }

  lemma CoveredSplit(a: seq<seq<Range>>, b: seq<seq<Range>>, x: int)
    ensures Covered(a + b, x) <==> Covered(a, x) || Covered(b, x)
  {
    assert forall m :: m in a + b <==> m in a || m in b;
  }

  /**
   A successful merge covers exactly what its parts cover, and lets one read
   span two addresses exactly when everything between them is covered and no
   declared edge separates them.
   */
  lemma MergeMeaning(declared: seq<seq<Range>>, claimed: seq<seq<Range>>)
    requires AllMapsUpright(declared) && AllMapsUpright(claimed)
    requires MergedSpace(declared, claimed).Ok?
    ensures MergeOf(MergedSpace(declared, claimed).value, declared, claimed)
  {
    var parts := Joint(declared) + Flatten(claimed);
    var cuts := SortInts(EdgesOf(Flatten(declared)));
    SortIntsAscends(EdgesOf(Flatten(declared)));
    PartsUpright(declared, claimed);
    CoalesceMeaning(parts);
    CutRunsCut(Coalesced(parts), cuts);
    forall x, y ensures SameRun(CutRuns(Coalesced(parts), cuts), x, y) <==>
                        Reachable(declared + claimed, x, y) && !EdgeBetween(declared, x, y) {
      CutsAreEdges(declared, x, y);
      PartsConnect(declared, claimed, x, y);
    }
  }

  lemma PartsUpright(declared: seq<seq<Range>>, claimed: seq<seq<Range>>)
    requires AllMapsUpright(claimed) && Valid(Joint(declared))
    ensures AllUpright(Joint(declared) + Flatten(claimed))
  {
    forall r | r in Joint(declared) + Flatten(claimed) ensures r.Upright() {
      FlattenHolds(claimed, r);
    }
  }

  lemma CutsAreEdges(declared: seq<seq<Range>>, x: int, y: int)
    ensures Severed(SortInts(EdgesOf(Flatten(declared))), x, y) <==> EdgeBetween(declared, x, y)
  {
    var cuts := SortInts(EdgesOf(Flatten(declared)));
    forall e ensures e in cuts <==> IsEdge(declared, e) { EdgesAre(declared, e); }
    if EdgeBetween(declared, x, y) {
      var e :| IsEdge(declared, e) && (x < e <= y || y < e <= x);
      var i :| 0 <= i < |cuts| && cuts[i] == e;
    }
    if Severed(cuts, x, y) {
      var i :| 0 <= i < |cuts| && (x < cuts[i] <= y || y < cuts[i] <= x);
      assert cuts[i] in cuts;
    }
  }

  lemma PartsConnect(declared: seq<seq<Range>>, claimed: seq<seq<Range>>, x: int, y: int)
    requires AllMapsUpright(declared)
    ensures Connected(Joint(declared) + Flatten(claimed), x, y) <==> Reachable(declared + claimed, x, y)
  {
    forall z { PartsCover(declared, claimed, z); }
  }

  /** An ordered list of runs is fixed by which pairs of addresses share one. */
  lemma {:induction false} RunsAreUnique(a: seq<Range>, b: seq<Range>)
    requires Ordered(a) && Ordered(b)
    requires forall x, y :: SameRun(a, x, y) <==> SameRun(b, x, y)
    ensures a == b
  {
    if a != [] && b != [] {
      FirstRunsAgree(a, b);
      forall x, y ensures SameRun(a[1..], x, y) <==> SameRun(b[1..], x, y) {
        TailRuns(a, x, y);
        TailRuns(b, x, y);
      }
      RunsAreUnique(a[1..], b[1..]);
    } else {
      NoRunsMeansNone(a, b);
      NoRunsMeansNone(b, a);
    }
  }

  lemma NoRunsMeansNone(a: seq<Range>, b: seq<Range>)
    requires Ordered(a)
    requires forall x, y :: SameRun(a, x, y) <==> SameRun(b, x, y)
    ensures b == [] ==> a == []
  {
    if a != [] {
      assert a[0] in a && a[0].Has(a[0].low);
      assert SameRun(a, a[0].low, a[0].low);
      assert SameRun(b, a[0].low, a[0].low);
    }
  }

  lemma TailRuns(a: seq<Range>, x: int, y: int)
    requires Ordered(a) && a != []
    ensures SameRun(a[1..], x, y) <==> SameRun(a, x, y) && !(a[0].Has(x) && a[0].Has(y))
  {
    assert a == [a[0]] + a[1..];
    SameRunSplit([a[0]], a[1..], x, y);
    SameRunOne(a[0], x, y);
    if SameRun(a[1..], x, y) {
      var r :| r in a[1..] && r.Has(x) && r.Has(y);
      var i :| 0 < i < |a| && a[i] == r;
    }
  }

  lemma FirstRunsAgree(a: seq<Range>, b: seq<Range>)
    requires Ordered(a) && Ordered(b) && a != [] && b != []
    requires forall x, y :: SameRun(a, x, y) <==> SameRun(b, x, y)
    ensures a[0] == b[0]
  {
    assert a[0] in a && b[0] in b;
    FirstRunFits(a, b);
    FirstRunFits(b, a);
  }

  /** The first run of one list lies inside a run of the other, which starts no earlier than its first. */
  lemma FirstRunFits(a: seq<Range>, b: seq<Range>)
    requires Ordered(a) && Ordered(b) && a != [] && b != []
    requires forall x, y :: SameRun(a, x, y) ==> SameRun(b, x, y)
    ensures b[0].low <= a[0].low
    ensures a[0].low <= b[0].high ==> a[0].high <= b[0].high
  {
    var lo, hi := a[0].low, a[0].high;
    assert a[0] in a && a[0].Has(lo) && a[0].Has(hi);
    assert SameRun(a, lo, hi);
    var r :| r in b && r.Has(lo) && r.Has(hi);
    var i :| 0 <= i < |b| && b[i] == r;
    assert b[0] in b;
  }

  // ----- merging whole devices -----

  /** Add to a list standing for a set. */
  function AddPart(parts: seq<seq<Range>>, m: seq<Range>): seq<seq<Range>> {
    if m in parts then parts else parts + [m]
  }

  /** File a map among the parts of its kind. */
  function FilePart(parts: seq<seq<Range>>, m: Option<SpaceMap>, declared: bool): seq<seq<Range>> {
    if m.Some? && m.value.declared == declared then AddPart(parts, m.value.ranges) else parts
  }

  /** The maps of one kind the devices give for one space, without repeats. */
  function PartsFor(devices: seq<DeviceRanges>, space: Space, declared: bool): seq<seq<Range>> {
    if devices == [] then []
    else FilePart(PartsFor(devices[..|devices| - 1], space, declared), devices[|devices| - 1].MapOf(space), declared)
  }

  ghost predicate NoRepeats<T>(s: seq<T>) {
    forall i, j :: 0 <= i < j < |s| ==> s[i] != s[j]
  }

  /** A map several devices share counts once. */
  lemma {:induction false} PartsDiffer(devices: seq<DeviceRanges>, space: Space, declared: bool)
    ensures NoRepeats(PartsFor(devices, space, declared))
  {
    if devices != [] {
      var n := |devices| - 1;
      PartsDiffer(devices[..n], space, declared);
      var before, parts := PartsFor(devices[..n], space, declared), PartsFor(devices, space, declared);
      assert parts == before || (parts == before + [parts[|parts| - 1]] && parts[|parts| - 1] !in before);
      if parts != before { Appended(before, parts[|parts| - 1]); }
    }
  }

  lemma Appended<T>(s: seq<T>, x: T)
    requires x !in s && NoRepeats(s)
    ensures NoRepeats(s + [x])
  {
  }

  /** The spaces some device has a map for. */
  function Constrained(devices: seq<DeviceRanges>): set<Space> {
    set space, d | d in devices && space in d.maps && d.maps[space].Some? :: space
  }

  function MergedIn(devices: seq<DeviceRanges>, space: Space): Result<SpaceMap, Conflict> {
    MergedSpace(PartsFor(devices, space, true), PartsFor(devices, space, false))
  }

  function Merged(devices: seq<DeviceRanges>): Result<DeviceRanges, Conflict> {
    var spaces := Constrained(devices);
    if forall space | space in spaces :: MergedIn(devices, space).Ok? then
      Ok(DeviceRanges(map space | space in spaces :: Some(MergedIn(devices, space).value)))
    else Err(Conflict)
  }

  /** The dictionaries that `merged` fills, one entry per space seen. */
  ghost predicate Collected(filed: map<Space, seq<seq<Range>>>, devices: seq<DeviceRanges>, declared: bool) {
    && NoneEmpty(filed)
    && (forall space :: PartsFor(devices, space, declared) == Lookup(filed, space))
  }

  ghost predicate NoneEmpty(filed: map<Space, seq<seq<Range>>>) {
    forall space :: space in filed ==> filed[space] != []
  }

  function Lookup(filed: map<Space, seq<seq<Range>>>, space: Space): seq<seq<Range>> {
    if space in filed then filed[space] else []
  }

  lemma {:induction false} PartsForMembers(devices: seq<DeviceRanges>, space: Space, declared: bool, m: seq<Range>)
    ensures m in PartsFor(devices, space, declared) <==>
            exists d :: d in devices && d.MapOf(space) == Some(SpaceMap(m, declared))
  {
    if devices != [] {
      var n := |devices| - 1;
      PartsForMembers(devices[..n], space, declared, m);
      assert devices == devices[..n] + [devices[n]];
      assert forall d :: d in devices <==> d in devices[..n] || d == devices[n];
    }
  }

  lemma ConstrainedHasParts(devices: seq<DeviceRanges>, space: Space)
    ensures space in Constrained(devices) <==>
            PartsFor(devices, space, true) != [] || PartsFor(devices, space, false) != []
  {
    if space in Constrained(devices) {
      var d :| d in devices && space in d.maps && d.maps[space].Some?;
      var m := d.maps[space].value;
      PartsForMembers(devices, space, m.declared, m.ranges);
    }
    forall declared | PartsFor(devices, space, declared) != [] ensures space in Constrained(devices) {
      var m := PartsFor(devices, space, declared)[0];
      PartsForMembers(devices, space, declared, m);
      var d :| d in devices && d.MapOf(space) == Some(SpaceMap(m, declared));
      assert space in d.maps;
    }
  }

  method Merge(devices: seq<DeviceRanges>) returns (r: Result<DeviceRanges, Conflict>)
    ensures r == Merged(devices)
  {
    var declaredBy: map<Space, seq<seq<Range>>> := map[];
    var claimedBy: map<Space, seq<seq<Range>>> := map[];
    for i := 0 to |devices|
      invariant Collected(declaredBy, devices[..i], true)
      invariant Collected(claimedBy, devices[..i], false)
    {
      declaredBy, claimedBy := CollectDevice(devices[i], declaredBy, claimedBy);
      assert devices[..i + 1][..i] == devices[..i];
    }
    assert devices[..|devices|] == devices;
    r := MergeSpaces(devices, declaredBy, claimedBy);
  }

  /** Every map of the device has been filed under its space, but for those still to do. */
  ghost predicate FiledBut(filed: map<Space, seq<seq<Range>>>, before: map<Space, seq<seq<Range>>>, device: DeviceRanges, todo: set<Space>, declared: bool) {
    && NoneEmpty(filed)
    && forall space :: Lookup(filed, space) ==
         (if space in todo then Lookup(before, space) else FilePart(Lookup(before, space), device.MapOf(space), declared))
  }

  lemma OneFiled(filed: map<Space, seq<seq<Range>>>, before: map<Space, seq<seq<Range>>>, device: DeviceRanges, todo: set<Space>, declared: bool, space: Space)
    requires FiledBut(filed, before, device, todo, declared) && space in todo && space in device.maps
    ensures var m := device.maps[space];
      FiledBut(if m.Some? && m.value.declared == declared then filed[space := AddPart(Lookup(filed, space), m.value.ranges)] else filed,
               before, device, todo - {space}, declared)
  {
    var m := device.maps[space];
    var parts := FilePart(Lookup(before, space), m, declared);
    assert Lookup(filed, space) == Lookup(before, space) && device.MapOf(space) == m;
    if m.Some? && m.value.declared == declared {
      var now := filed[space := parts];
      assert parts == AddPart(Lookup(filed, space), m.value.ranges) && parts != [];
      hide AddPart, FilePart;
      forall x ensures Lookup(now, x) == if x == space then parts else Lookup(filed, x) { }
      assert NoneEmpty(now);
    } else {
      assert parts == Lookup(filed, space);
      hide FilePart;
    }
  }

  /** One turn of the collecting loop: file each map of one device under its space and kind. */
  method CollectDevice(device: DeviceRanges, declared0: map<Space, seq<seq<Range>>>, claimed0: map<Space, seq<seq<Range>>>)
    returns (declaredBy: map<Space, seq<seq<Range>>>, claimedBy: map<Space, seq<seq<Range>>>)
    requires NoneEmpty(declared0) && NoneEmpty(claimed0)
    ensures NoneEmpty(declaredBy) && NoneEmpty(claimedBy)
    ensures forall space :: Lookup(declaredBy, space) == FilePart(Lookup(declared0, space), device.MapOf(space), true)
    ensures forall space :: Lookup(claimedBy, space) == FilePart(Lookup(claimed0, space), device.MapOf(space), false)
  {
    hide AddPart;
    declaredBy, claimedBy := declared0, claimed0;
    var todo := device.maps.Keys;
    while todo != {}
      invariant todo <= device.maps.Keys
      invariant FiledBut(declaredBy, declared0, device, todo, true)
      invariant FiledBut(claimedBy, claimed0, device, todo, false)
      decreases todo
    {
      hide FiledBut, FilePart, Lookup, NoneEmpty;
      var space :| space in todo;
      OneFiled(declaredBy, declared0, device, todo, true, space);
      OneFiled(claimedBy, claimed0, device, todo, false, space);
      match device.maps[space] {
        case None =>
        case Some(m) =>
          if m.declared {
            declaredBy := declaredBy[space := AddPart(Lookup(declaredBy, space), m.ranges)];
          } else {
            claimedBy := claimedBy[space := AddPart(Lookup(claimedBy, space), m.ranges)];
          }
      }
      todo := todo - {space};
    }
  }

  /** The second loop of `merged`: merge each space on its own, or raise at the first conflict. */
  method MergeSpaces(ghost devices: seq<DeviceRanges>,
                     declaredBy: map<Space, seq<seq<Range>>>, claimedBy: map<Space, seq<seq<Range>>>)
    returns (r: Result<DeviceRanges, Conflict>)
    requires Collected(declaredBy, devices, true) && Collected(claimedBy, devices, false)
    ensures r == Merged(devices)
  {
    var merged: map<Space, Option<SpaceMap>> := map[];
    var todo := declaredBy.Keys + claimedBy.Keys;
    CollectedKeys(devices, declaredBy, claimedBy);
    ghost var spaces := todo;
    while todo != {}
      invariant todo <= spaces && merged.Keys == spaces - todo
      invariant MergedSoFar(devices, merged)
      decreases todo
    {
      var space :| space in todo;
      var one := MergeOne(Lookup(declaredBy, space), Lookup(claimedBy, space));
      LookedUp(devices, declaredBy, claimedBy, space);
      if one.Err? {
        MergedFails(devices, space);
        return Err(Conflict);
      }
      MergedOneMore(devices, merged, space, one.value);
      merged := merged[space := Some(one.value)];
      todo := todo - {space};
    }
    MergedSucceeds(devices, merged);
    r := Ok(DeviceRanges(merged));
  }

  lemma LookedUp(devices: seq<DeviceRanges>,
                 declaredBy: map<Space, seq<seq<Range>>>, claimedBy: map<Space, seq<seq<Range>>>, space: Space)
    requires Collected(declaredBy, devices, true) && Collected(claimedBy, devices, false)
    ensures MergedSpace(Lookup(declaredBy, space), Lookup(claimedBy, space)) == MergedIn(devices, space)
  {
    assert PartsFor(devices, space, true) == Lookup(declaredBy, space);
    assert PartsFor(devices, space, false) == Lookup(claimedBy, space);
  }

  ghost predicate MergedSoFar(devices: seq<DeviceRanges>, merged: map<Space, Option<SpaceMap>>) {
    forall space :: space in merged ==>
      MergedIn(devices, space).Ok? && merged[space] == Some(MergedIn(devices, space).value)
  }

  lemma MergedOneMore(devices: seq<DeviceRanges>, merged: map<Space, Option<SpaceMap>>, space: Space, m: SpaceMap)
    requires MergedSoFar(devices, merged) && MergedIn(devices, space) == Ok(m)
    ensures MergedSoFar(devices, merged[space := Some(m)])
  {
  }

  lemma MergedFails(devices: seq<DeviceRanges>, space: Space)
    requires space in Constrained(devices) && MergedIn(devices, space).Err?
    ensures Merged(devices) == Err(Conflict)
  {
  }

  lemma MergedSucceeds(devices: seq<DeviceRanges>, merged: map<Space, Option<SpaceMap>>)
    requires merged.Keys == Constrained(devices) && MergedSoFar(devices, merged)
    ensures Merged(devices) == Ok(DeviceRanges(merged))
  {
    hide MergedIn;
    forall space | space in Constrained(devices) ensures MergedIn(devices, space).Ok? {
      assert space in merged;
    }
    var result := Merged(devices).value.maps;
    forall space | space in merged ensures result[space] == merged[space] { }
    assert result == merged;
  }

  method MergeOne(declared: seq<seq<Range>>, claimed: seq<seq<Range>>) returns (r: Result<SpaceMap, Conflict>)
    ensures r == MergedSpace(declared, claimed)
  {
    var joint := Joint(declared);
    if !Valid(joint) {
      return Err(Conflict);
    }
    var coalesced := Coalesce(joint + Flatten(claimed));
    var runs := CutRunsLoop(coalesced, SortInts(EdgesOf(Flatten(declared))));
    r := Ok(SpaceMap(runs, declared != []));
  }

  lemma CollectedKeys(devices: seq<DeviceRanges>,
                      declaredBy: map<Space, seq<seq<Range>>>, claimedBy: map<Space, seq<seq<Range>>>)
    requires Collected(declaredBy, devices, true) && Collected(claimedBy, devices, false)
    ensures declaredBy.Keys + claimedBy.Keys == Constrained(devices)
  {
    forall space ensures space in declaredBy.Keys + claimedBy.Keys <==> space in Constrained(devices) {
      ConstrainedHasParts(devices, space);
      assert PartsFor(devices, space, true) == Lookup(declaredBy, space);
      assert PartsFor(devices, space, false) == Lookup(claimedBy, space);
    }
  }

  // ----- laws of merging -----

  ghost predicate DevicesUpright(devices: seq<DeviceRanges>) {
    forall d, space :: d in devices && d.MapOf(space).Some? ==> AllUpright(d.MapOf(space).value.ranges)
  }

  lemma PartsUprightIn(devices: seq<DeviceRanges>, space: Space, declared: bool)
    requires DevicesUpright(devices)
    ensures AllMapsUpright(PartsFor(devices, space, declared))
  {
    forall m | m in PartsFor(devices, space, declared) ensures AllUpright(m) {
      PartsForMembers(devices, space, declared, m);
    }
  }

  /** What `merged` raises or returns for a whole device, space by space. */
  ghost predicate MergedAs(r: Result<DeviceRanges, Conflict>, devices: seq<DeviceRanges>) {
    && (r.Err? <==> exists space :: Disagree(PartsFor(devices, space, true)))
    && (r.Ok? ==> r.value.maps.Keys == Constrained(devices))
    && (r.Ok? ==> forall space :: space in Constrained(devices) ==>
          && r.value.MapOf(space).Some?
          && MergeOf(r.value.MapOf(space).value, PartsFor(devices, space, true), PartsFor(devices, space, false)))
  }

  lemma MergedMeaning(devices: seq<DeviceRanges>)
    requires DevicesUpright(devices)
    ensures MergedAs(Merged(devices), devices)
  {
    forall space ensures MergedIn(devices, space).Err? <==> Disagree(PartsFor(devices, space, true)) {
      MergedInMeaning(devices, space);
    }
    forall space | Disagree(PartsFor(devices, space, true)) ensures space in Constrained(devices) {
      ConstrainedHasParts(devices, space);
    }
    forall space | space in Constrained(devices) && MergedIn(devices, space).Ok?
      ensures MergeOf(MergedIn(devices, space).value, PartsFor(devices, space, true), PartsFor(devices, space, false))
    {
      MergedInMeaning(devices, space);
    }
  }

  lemma MergedInMeaning(devices: seq<DeviceRanges>, space: Space)
    requires DevicesUpright(devices)
    ensures MergedIn(devices, space).Err? <==> Disagree(PartsFor(devices, space, true))
    ensures MergedIn(devices, space).Ok? ==>
      MergeOf(MergedIn(devices, space).value, PartsFor(devices, space, true), PartsFor(devices, space, false))
  {
    PartsUprightIn(devices, space, true);
    PartsUprightIn(devices, space, false);
    MergeRaisesIff(PartsFor(devices, space, true), PartsFor(devices, space, false));
    if MergedIn(devices, space).Ok? {
      MergeMeaning(PartsFor(devices, space, true), PartsFor(devices, space, false));
    }
  }

  ghost predicate SameParts(a: seq<seq<Range>>, b: seq<seq<Range>>) {
    forall m :: m in a <==> m in b
  }

  lemma MergeOfSameParts(a: SpaceMap, b: SpaceMap, declared: seq<seq<Range>>, declared': seq<seq<Range>>,
                         claimed: seq<seq<Range>>, claimed': seq<seq<Range>>)
    requires SameParts(declared, declared') && SameParts(claimed, claimed')
    requires MergeOf(a, declared, claimed) && MergeOf(b, declared', claimed')
    ensures a == b
  {
    assert declared == [] <==> declared' == [] by {
      if declared != [] { assert declared[0] in declared; }
      if declared' != [] { assert declared'[0] in declared'; }
    }
    forall x, y ensures SameRun(a.ranges, x, y) <==> SameRun(b.ranges, x, y) {
      assert SameParts(declared + claimed, declared' + claimed');
      forall z ensures Covered(declared + claimed, z) <==> Covered(declared' + claimed', z) { }
      forall e ensures IsEdge(declared, e) <==> IsEdge(declared', e) { }
    }
    RunsAreUnique(a.ranges, b.ranges);
  }

  /** Neither the order in which devices are merged nor repeating one changes the outcome. */
  lemma MergeIgnoresOrder(devices: seq<DeviceRanges>, devices': seq<DeviceRanges>)
    requires DevicesUpright(devices)
    requires forall d :: d in devices <==> d in devices'
    ensures Merged(devices) == Merged(devices')
  {
    MergedMeaning(devices);
    MergedMeaning(devices');
    forall space, declared ensures SameParts(PartsFor(devices, space, declared), PartsFor(devices', space, declared)) {
      SamePartsFor(devices, devices', space, declared);
    }
    assert Constrained(devices) == Constrained(devices');
    MergedAsUnique(Merged(devices), Merged(devices'), devices, devices');
  }

  lemma SamePartsFor(devices: seq<DeviceRanges>, devices': seq<DeviceRanges>, space: Space, declared: bool)
    requires forall d :: d in devices <==> d in devices'
    ensures SameParts(PartsFor(devices, space, declared), PartsFor(devices', space, declared))
  {
    forall m ensures m in PartsFor(devices, space, declared) <==> m in PartsFor(devices', space, declared) {
      PartsForMembers(devices, space, declared, m);
      PartsForMembers(devices', space, declared, m);
    }
  }

  lemma MergedAsUnique(r: Result<DeviceRanges, Conflict>, r': Result<DeviceRanges, Conflict>,
                       devices: seq<DeviceRanges>, devices': seq<DeviceRanges>)
    requires MergedAs(r, devices) && MergedAs(r', devices')
    requires Constrained(devices) == Constrained(devices')
    requires forall space, declared ::
      SameParts(PartsFor(devices, space, declared), PartsFor(devices', space, declared))
    ensures r == r'
  {
    assert r.Err? <==> r'.Err? by {
      forall space ensures Disagree(PartsFor(devices, space, true)) <==> Disagree(PartsFor(devices', space, true)) {
        assert SameParts(PartsFor(devices, space, true), PartsFor(devices', space, true));
      }
    }
    if r.Ok? {
      forall space | space in Constrained(devices) ensures r.value.maps[space] == r'.value.maps[space] {
        MergeOfSameParts(r.value.MapOf(space).value, r'.value.MapOf(space).value,
                         PartsFor(devices, space, true), PartsFor(devices', space, true),
                         PartsFor(devices, space, false), PartsFor(devices', space, false));
      }
      assert r.value.maps == r'.value.maps;
    } else {
      assert r.error.Conflict? && r'.error.Conflict?;
    }
  }

  /** Reading a merged map back through `merged` alone changes nothing. */
  lemma MergeIsIdempotent(devices: seq<DeviceRanges>)
    requires DevicesUpright(devices) && Merged(devices).Ok?
    ensures Merged([Merged(devices).value]) == Merged(devices)
  {
    var m := Merged(devices).value;
    MergedMeaning(devices);
    forall space | m.MapOf(space).Some? ensures AllUpright(m.MapOf(space).value.ranges) {
      assert space in Constrained(devices);
    }
    MergedMeaning([m]);
    forall space, declared ensures PartsFor([m], space, declared) == OnePart(m.MapOf(space), declared) {
      LonePart(m, space, declared);
    }
    RemergeConstrains(devices, m);
    forall space ensures !Disagree(PartsFor([m], space, true)) {
      LonePart(m, space, true);
    }
    RemergeAll(devices, m, Merged([m]).value);
  }

  lemma LonePart(m: DeviceRanges, space: Space, declared: bool)
    ensures PartsFor([m], space, declared) == OnePart(m.MapOf(space), declared)
    ensures declared ==> !Disagree(PartsFor([m], space, declared))
  {
    assert [m][..0] == [];
    assert PartsFor([], space, declared) == [];
  }

  lemma RemergeConstrains(devices: seq<DeviceRanges>, m: DeviceRanges)
    requires m.maps.Keys == Constrained(devices)
    requires forall space :: space in Constrained(devices) ==> m.MapOf(space).Some?
    ensures Constrained([m]) == Constrained(devices)
  {
    assert m in [m];
  }

  lemma RemergeAll(devices: seq<DeviceRanges>, m: DeviceRanges, again: DeviceRanges)
    requires MergedAs(Ok(m), devices) && again.maps.Keys == m.maps.Keys
    requires forall space :: space in m.maps ==>
      && again.MapOf(space).Some? && m.MapOf(space).Some?
      && MergeOf(again.MapOf(space).value, OnePart(m.MapOf(space), true), OnePart(m.MapOf(space), false))
    ensures again == m
  {
    forall space | space in m.maps ensures again.maps[space] == m.maps[space] {
      RemergeSpace(m.MapOf(space).value, again.MapOf(space).value,
                   PartsFor(devices, space, true), PartsFor(devices, space, false));
    }
    assert again.maps == m.maps;
  }

  function OnePart(m: Option<SpaceMap>, declared: bool): seq<seq<Range>> {
    FilePart([], m, declared)
  }

  lemma RemergeSpace(m: SpaceMap, again: SpaceMap, declared: seq<seq<Range>>, claimed: seq<seq<Range>>)
    requires MergeOf(m, declared, claimed)
    requires MergeOf(again, OnePart(Some(m), true), OnePart(Some(m), false))
    ensures again == m
  {
    var parts := OnePart(Some(m), true) + OnePart(Some(m), false);
    assert parts == [m.ranges] && OnePart(Some(m), true) == if m.declared then [m.ranges] else [];
    forall x, y ensures SameRun(again.ranges, x, y) <==> SameRun(m.ranges, x, y) {
      if m.declared {
        OwnEdgesSeparate(m.ranges, x, y);
      } else {
        forall z ensures Covered(parts, z) <==> Covered(declared + claimed, z) {
          assert Covered(parts, z) <==> Covers(m.ranges, z) by { assert m.ranges in parts; }
          assert Covers(m.ranges, z) <==> SameRun(m.ranges, z, z);
          assert Reachable(declared + claimed, z, z) <==> Covered(declared + claimed, z);
        }
        assert Reachable(parts, x, y) <==> Reachable(declared + claimed, x, y);
        assert !EdgeBetween([], x, y) && !EdgeBetween(declared, x, y);
      }
    }
    RunsAreUnique(again.ranges, m.ranges);
  }

  /** In an ordered list, two addresses share a run unless a gap or one of the list's own edges separates them. */
  lemma OwnEdgesSeparate(ranges: seq<Range>, x: int, y: int)
    requires Ordered(ranges)
    ensures SameRun(ranges, x, y) <==> Reachable([ranges], x, y) && !EdgeBetween([ranges], x, y)
  {
    assert ranges in [ranges];
    if SameRun(ranges, x, y) {
      var r :| r in ranges && r.Has(x) && r.Has(y);
      forall z | x <= z <= y || y <= z <= x ensures Covered([ranges], z) {
        assert r.Has(z);
        assert Covers(ranges, z);
      }
      forall e | IsEdge([ranges], e) ensures !(x < e <= y || y < e <= x) {
        var q :| q in ranges && (e == q.low || e == q.high + 1);
        NoEdgeInside(ranges, r, q);
      }
    } else if Reachable([ranges], x, y) {
      assert Covered([ranges], x);
      assert Covers(ranges, x);
      var r :| r in ranges && r.Has(x);
      var edge := if y < x then r.low else r.high + 1;
      assert IsEdge([ranges], edge);
    }
  }

  lemma NoEdgeInside(ranges: seq<Range>, r: Range, q: Range)
    requires Ordered(ranges) && r in ranges && q in ranges
    ensures q.low <= r.low || r.high < q.low
    ensures q.high < r.low || r.high <= q.high
  {
    if r.Has(q.low) { OrderedIsDisjoint(ranges, r, q, q.low); }
    if r.Has(q.high) { OrderedIsDisjoint(ranges, r, q, q.high); }
  }

  // ----- merging in stages -----

  /** The address sets of a merged map and of its parts are the same, and so is what is reachable in them. */
  lemma MergedReaches(m: SpaceMap, declared: seq<seq<Range>>, claimed: seq<seq<Range>>, x: int, y: int)
    requires MergeOf(m, declared, claimed)
    ensures Covers(m.ranges, x) <==> Covered(declared + claimed, x)
    ensures Connected(m.ranges, x, y) <==> Reachable(declared + claimed, x, y)
  {
    forall z ensures Covers(m.ranges, z) <==> Covered(declared + claimed, z) {
      assert SameRun(m.ranges, z, z) <==> Covers(m.ranges, z) by {
        if Covers(m.ranges, z) { var r :| r in m.ranges && r.Has(z); }
      }
      assert !EdgeBetween(declared, z, z);
      assert Reachable(declared + claimed, z, z) <==> Covered(declared + claimed, z);
    }
  }

  /** A declaration covers some address that is merged already, and reaches otherwise from there. */
  ghost predicate Clashes(declared: seq<seq<Range>>, claimed: seq<seq<Range>>, n: seq<Range>) {
    exists x, y :: ClashesAt(declared, claimed, n, x, y)
  }

  ghost predicate ClashesAt(declared: seq<seq<Range>>, claimed: seq<seq<Range>>, n: seq<Range>, x: int, y: int) {
    Covered(declared + claimed, x) && Covers(n, x) && Reachable(declared + claimed, x, y) != Connected(n, x, y)
  }

  lemma ClashDisagrees(m: SpaceMap, declared: seq<seq<Range>>, claimed: seq<seq<Range>>, n: seq<Range>)
    requires MergeOf(m, declared, claimed) && Clashes(declared, claimed, n)
    ensures Disagree([m.ranges, n])
  {
    hide MergeOf, Covers, Connected, Reachable, Covered;
    var two := [m.ranges, n];
    assert two[0] in two && two[1] in two;
    var x, y :| ClashesAt(declared, claimed, n, x, y);
    MergedReaches(m, declared, claimed, x, y);
  }

  lemma DisagreementClashes(m: SpaceMap, declared: seq<seq<Range>>, claimed: seq<seq<Range>>, n: seq<Range>)
    requires MergeOf(m, declared, claimed) && Disagree([m.ranges, n])
    ensures Clashes(declared, claimed, n)
  {
    hide MergeOf, Covers, Connected, Reachable, Covered;
    var two := [m.ranges, n];
    var a, b, x, y :| a in two && b in two && Covers(a, x) && Covers(b, x) && Connected(a, x, y) && !Connected(b, x, y);
    MergedReaches(m, declared, claimed, x, y);
    assert ClashesAt(declared, claimed, n, x, y);
  }

  /**
   Merging a merged map with one more declaration raises exactly when that declaration disagrees
   with everything merged so far taken together, where merging all at once would ask only that it
   agree with each declaration.
   */
  lemma StagedMergeRaisesIff(m: SpaceMap, declared: seq<seq<Range>>, claimed: seq<seq<Range>>, n: seq<Range>)
    requires MergeOf(m, declared, claimed) && AllUpright(m.ranges) && AllUpright(n)
    ensures MergedSpace([m.ranges, n], []).Err? <==> Clashes(declared, claimed, n)
  {
    hide MergeOf, MergedSpace, Disagree, Clashes;
    MergeRaisesIff([m.ranges, n], []);
    if Clashes(declared, claimed, n) { ClashDisagrees(m, declared, claimed, n); }
    if Disagree([m.ranges, n]) { DisagreementClashes(m, declared, claimed, n); }
  }

  lemma OneRangeCovers(r: Range, x: int, y: int)
    requires r.Upright()
    ensures Covers([r], x) <==> r.Has(x)
    ensures Connected([r], x, y) <==> r.Has(x) && r.Has(y)
  {
    var one := [r];
    assert one[0] in one;
    forall z ensures Covers(one, z) <==> r.Has(z) { }
    if Connected(one, x, y) { assert Covers(one, x) && Covers(one, y); }
  }

  /** Declarations of one range each agree when any two are the same or share nothing. */
  lemma ApartAgree(declared: seq<seq<Range>>)
    requires forall m: seq<Range> :: m in declared ==> |m| == 1 && m[0].Upright()
    requires forall m: seq<Range>, n: seq<Range>, x :: m in declared && n in declared && m[0].Has(x) && n[0].Has(x) ==> m == n
    ensures !Disagree(declared)
  {
    forall m, n, x, y | m in declared && n in declared && Covers(m, x) && Covers(n, x) ensures Connected(m, x, y) ==> Connected(n, x, y) {
      assert m == [m[0]] && n == [n[0]];
      OneRangeCovers(m[0], x, y);
      OneRangeCovers(n[0], x, y);
    }
  }

  /** So merging is not associative: three declarations that fit together need not fit in stages. */
  lemma StagingCanConflict()
    ensures var low, high := [Range(0, 9)], [Range(10, 19)];
      && MergedSpace([low, high, low], []).Ok?
      && MergedSpace([low, high], []).Ok?
      && MergedSpace([MergedSpace([low, high], []).value.ranges, low], []).Err?
  {
    hide MergedSpace, Disagree, MergeOf;
    var low, high := [Range(0, 9)], [Range(10, 19)];
    var all, two := [low, high, low], [low, high];
    assert forall k :: k in all <==> k == low || k == high;
    assert forall k :: k in two <==> k == low || k == high;
    ApartAgree(all);
    ApartAgree(two);
    MergeRaisesIff(all, []);
    MergeRaisesIff(two, []);
    MergeMeaning(two, []);
    var m := MergedSpace(two, []).value;
    MergedIsOrdered(m, two, []);
    StagedMergeRaisesIff(m, two, [], low);
    NineAndTen(low, high);
  }

  lemma NineAndTen(low: seq<Range>, high: seq<Range>)
    requires low == [Range(0, 9)] && high == [Range(10, 19)]
    ensures Clashes([low, high], [], low)
  {
    var two := [low, high] + [];
    OneRangeCovers(low[0], 9, 10);
    OneRangeCovers(high[0], 10, 10);
    assert two[0] == low && two[1] == high;
    assert low in two && high in two;
    forall z | 9 <= z <= 10 ensures Covered(two, z) { }
    assert ClashesAt([low, high], [], low, 9, 10);
  }

  lemma MergedIsOrdered(m: SpaceMap, declared: seq<seq<Range>>, claimed: seq<seq<Range>>)
    requires MergeOf(m, declared, claimed)
    ensures AllUpright(m.ranges)
  {
  }

  // ----- translation -----

  function ShiftMaps(devices: seq<DeviceRanges>, k: int): (t: seq<DeviceRanges>)
    ensures |t| == |devices| && forall i :: 0 <= i < |t| ==> t[i] == devices[i].Shift(k)
  {
    if devices == [] then [] else [devices[0].Shift(k)] + ShiftMaps(devices[1..], k)
  }

  lemma ShiftMembers(ranges: seq<Range>, k: int, r: Range)
    ensures r in ShiftAll(ranges, k) <==> r.Shift(-k) in ranges
  {
    var t := ShiftAll(ranges, k);
    if r in t {
      var i :| 0 <= i < |t| && t[i] == r;
      assert ranges[i] == r.Shift(-k);
    }
    if r.Shift(-k) in ranges {
      var i :| 0 <= i < |ranges| && ranges[i] == r.Shift(-k);
      assert t[i] == r;
    }
  }

  lemma ShiftCovers(ranges: seq<Range>, k: int, x: int)
    ensures Covers(ShiftAll(ranges, k), x) <==> Covers(ranges, x - k)
  {
    ShiftSameRun(ranges, k, x, x);
    assert Covers(ranges, x - k) <==> SameRun(ranges, x - k, x - k);
    assert Covers(ShiftAll(ranges, k), x) <==> SameRun(ShiftAll(ranges, k), x, x);
  }

  lemma ShiftSameRun(ranges: seq<Range>, k: int, x: int, y: int)
    ensures SameRun(ShiftAll(ranges, k), x, y) <==> SameRun(ranges, x - k, y - k)
  {
    var t := ShiftAll(ranges, k);
    if SameRun(t, x, y) {
      var i :| 0 <= i < |t| && t[i].Has(x) && t[i].Has(y);
      assert ranges[i] in ranges && ranges[i].Has(x - k) && ranges[i].Has(y - k);
    }
    if SameRun(ranges, x - k, y - k) {
      var i :| 0 <= i < |ranges| && ranges[i].Has(x - k) && ranges[i].Has(y - k);
      assert t[i] in t && t[i].Has(x) && t[i].Has(y);
    }
  }

  /** `parts'` holds the maps of `parts`, moved by `k`. */
  ghost predicate Moved(parts: seq<seq<Range>>, parts': seq<seq<Range>>, k: int) {
    |parts'| == |parts| && forall i :: 0 <= i < |parts| ==> parts'[i] == ShiftAll(parts[i], k)
  }

  lemma MovedCovers(parts: seq<seq<Range>>, parts': seq<seq<Range>>, k: int, x: int)
    requires Moved(parts, parts', k)
    ensures Covered(parts', x) <==> Covered(parts, x - k)
  {
    if Covered(parts', x) {
      var i :| 0 <= i < |parts'| && Covers(parts'[i], x);
      ShiftCovers(parts[i], k, x);
      assert parts[i] in parts;
    }
    if Covered(parts, x - k) {
      var i :| 0 <= i < |parts| && Covers(parts[i], x - k);
      ShiftCovers(parts[i], k, x);
      assert parts'[i] in parts';
    }
  }

  lemma MovedEdges(parts: seq<seq<Range>>, parts': seq<seq<Range>>, k: int, e: int)
    requires Moved(parts, parts', k)
    ensures IsEdge(parts', e) <==> IsEdge(parts, e - k)
  {
    if IsEdge(parts', e) {
      var i, r :| 0 <= i < |parts'| && r in parts'[i] && (e == r.low || e == r.high + 1);
      ShiftMembers(parts[i], k, r);
      assert parts[i] in parts && r.Shift(-k) in parts[i];
    }
    if IsEdge(parts, e - k) {
      var i, r :| 0 <= i < |parts| && r in parts[i] && (e - k == r.low || e - k == r.high + 1);
      ShiftMembers(parts[i], k, r.Shift(k));
      assert r.Shift(k).Shift(-k) == r;
      assert parts'[i] in parts' && r.Shift(k) in parts'[i];
    }
  }

  lemma MovedConnects(m: seq<Range>, k: int, x: int, y: int)
    ensures Connected(ShiftAll(m, k), x, y) <==> Connected(m, x - k, y - k)
  {
    forall z { ShiftCovers(m, k, z); }
    if Connected(ShiftAll(m, k), x, y) {
      forall z | x - k <= z <= y - k || y - k <= z <= x - k ensures Covers(m, z) {
        assert Covers(ShiftAll(m, k), z + k);
      }
    }
  }

  lemma MovedDisagrees(parts: seq<seq<Range>>, parts': seq<seq<Range>>, k: int)
    requires Moved(parts, parts', k)
    ensures Disagree(parts') ==> Disagree(parts)
  {
    if Disagree(parts') {
      var i, j, x, y :| 0 <= i < |parts'| && 0 <= j < |parts'| && Covers(parts'[i], x) && Covers(parts'[j], x)
        && Connected(parts'[i], x, y) && !Connected(parts'[j], x, y);
      MovedConnects(parts[i], k, x, y);
      MovedConnects(parts[j], k, x, y);
      ShiftCovers(parts[i], k, x);
      ShiftCovers(parts[j], k, x);
      assert parts[i] in parts && parts[j] in parts;
      assert Covers(parts[i], x - k) && Covers(parts[j], x - k);
      assert Connected(parts[i], x - k, y - k) && !Connected(parts[j], x - k, y - k);
    }
  }

  lemma ShiftBack(m: seq<Range>, k: int)
    ensures ShiftAll(ShiftAll(m, k), -k) == m
  {
  }

  lemma MovedBack(parts: seq<seq<Range>>, parts': seq<seq<Range>>, k: int)
    requires Moved(parts, parts', k)
    ensures Moved(parts', parts, -k)
  {
    forall i | 0 <= i < |parts| ensures parts[i] == ShiftAll(parts'[i], -k) {
      ShiftBack(parts[i], k);
    }
  }

  lemma {:induction false} MovedParts(devices: seq<DeviceRanges>, k: int, space: Space, declared: bool)
    ensures Moved(PartsFor(devices, space, declared), PartsFor(ShiftMaps(devices, k), space, declared), k)
  {
    hide FilePart, ShiftMaps, ShiftMap;
    if devices != [] {
      hide Moved;
      var n, moved := |devices| - 1, ShiftMaps(devices, k);
      MovedParts(devices[..n], k, space, declared);
      assert moved[..n] == ShiftMaps(devices[..n], k);
      MovedMap(devices[n], k, space);
      MovedFile(PartsFor(devices[..n], space, declared), PartsFor(moved[..n], space, declared),
                devices[n].MapOf(space), k, declared);
    }
  }

  lemma MovedMap(device: DeviceRanges, k: int, space: Space)
    ensures device.Shift(k).MapOf(space) == ShiftMap(device.MapOf(space), k)
  {
  }

  lemma MovedFile(parts: seq<seq<Range>>, parts': seq<seq<Range>>, m: Option<SpaceMap>, k: int, declared: bool)
    requires Moved(parts, parts', k)
    ensures Moved(FilePart(parts, m, declared), FilePart(parts', ShiftMap(m, k), declared), k)
  {
    if m.Some? { MovedAdd(parts, parts', m.value.ranges, k); }
  }

  lemma MovedAdd(parts: seq<seq<Range>>, parts': seq<seq<Range>>, m: seq<Range>, k: int)
    requires Moved(parts, parts', k)
    ensures Moved(AddPart(parts, m), AddPart(parts', ShiftAll(m, k)), k)
  {
    if m in parts {
      var i :| 0 <= i < |parts| && parts[i] == m;
      assert parts'[i] in parts';
    }
    if ShiftAll(m, k) in parts' {
      var i :| 0 <= i < |parts'| && parts'[i] == ShiftAll(m, k);
      ShiftBack(m, k);
      ShiftBack(parts[i], k);
    }
  }

  lemma MovedMerge(m: SpaceMap, declared: seq<seq<Range>>, declared': seq<seq<Range>>,
                   claimed: seq<seq<Range>>, claimed': seq<seq<Range>>, k: int)
    requires MergeOf(m, declared, claimed)
    requires Moved(declared, declared', k) && Moved(claimed, claimed', k)
    ensures MergeOf(SpaceMap(ShiftAll(m.ranges, k), m.declared), declared', claimed')
  {
    var ranges := ShiftAll(m.ranges, k);
    forall r | r in ranges ensures r.Upright() { ShiftMembers(m.ranges, k, r); }
    assert declared == [] <==> declared' == [] by {
      if declared != [] { assert declared[0] in declared; }
      if declared' != [] { assert declared'[0] in declared'; }
    }
    forall x, y ensures SameRun(ranges, x, y) <==>
                        Reachable(declared' + claimed', x, y) && !EdgeBetween(declared', x, y) {
      ShiftSameRun(m.ranges, k, x, y);
      MovedReaches(declared + claimed, declared' + claimed', k, x, y);
      MovedEdgeBetween(declared, declared', k, x, y);
    }
  }

  lemma MovedReaches(parts: seq<seq<Range>>, parts': seq<seq<Range>>, k: int, x: int, y: int)
    requires Moved(parts, parts', k)
    ensures Reachable(parts', x, y) <==> Reachable(parts, x - k, y - k)
  {
    forall z { MovedCovers(parts, parts', k, z); }
    if Reachable(parts', x, y) {
      forall z | x - k <= z <= y - k || y - k <= z <= x - k ensures Covered(parts, z) {
        assert Covered(parts', z + k) <==> Covered(parts, z + k - k);
      }
    }
  }

  lemma MovedEdgeBetween(parts: seq<seq<Range>>, parts': seq<seq<Range>>, k: int, x: int, y: int)
    requires Moved(parts, parts', k)
    ensures EdgeBetween(parts', x, y) <==> EdgeBetween(parts, x - k, y - k)
  {
    forall e { MovedEdges(parts, parts', k, e); }
    if EdgeBetween(parts, x - k, y - k) {
      var e :| IsEdge(parts, e) && (x - k < e <= y - k || y - k < e <= x - k);
      assert IsEdge(parts', e + k) <==> IsEdge(parts, e + k - k);
    }
  }

  /** Merging commutes with moving a device's whole map, conflicts included. */
  lemma MergeCommutesWithShift(devices: seq<DeviceRanges>, k: int)
    requires DevicesUpright(devices)
    ensures Merged(ShiftMaps(devices, k)) ==
            if Merged(devices).Ok? then Ok(Merged(devices).value.Shift(k)) else Err(Conflict)
  {
    var shifted := ShiftMaps(devices, k);
    ShiftUpright(devices, k);
    MergedMeaning(devices);
    MergedMeaning(shifted);
    forall space ensures Disagree(PartsFor(shifted, space, true)) <==> Disagree(PartsFor(devices, space, true)) {
      MovedConflict(devices, k, space);
    }
    assert Merged(shifted).Err? <==> Merged(devices).Err?;
    ShiftConstrains(devices, k);
    if Merged(devices).Ok? {
      ShiftedSpaces(devices, k, Merged(devices).value, Merged(shifted).value);
    } else {
      assert Merged(devices).error.Conflict? && Merged(shifted).error.Conflict?;
    }
  }

  lemma MovedConflict(devices: seq<DeviceRanges>, k: int, space: Space)
    ensures Disagree(PartsFor(ShiftMaps(devices, k), space, true)) <==> Disagree(PartsFor(devices, space, true))
  {
    var parts, parts' := PartsFor(devices, space, true), PartsFor(ShiftMaps(devices, k), space, true);
    MovedParts(devices, k, space, true);
    MovedDisagrees(parts, parts', k);
    MovedBack(parts, parts', k);
    MovedDisagrees(parts', parts, -k);
  }

  lemma ShiftedSpaces(devices: seq<DeviceRanges>, k: int, m: DeviceRanges, m': DeviceRanges)
    requires MergedAs(Ok(m), devices) && MergedAs(Ok(m'), ShiftMaps(devices, k))
    requires Constrained(ShiftMaps(devices, k)) == Constrained(devices)
    ensures m' == m.Shift(k)
  {
    hide PartsFor, MergeOf, Disagree, Constrained, ShiftAll, ShiftMaps;
    forall space | space in Constrained(devices) ensures m'.maps[space] == m.Shift(k).maps[space] {
      ShiftedSpace(devices, k, space, m.MapOf(space).value, m'.MapOf(space).value);
    }
    assert m'.maps == m.Shift(k).maps;
  }

  lemma ShiftUpright(devices: seq<DeviceRanges>, k: int)
    requires DevicesUpright(devices)
    ensures DevicesUpright(ShiftMaps(devices, k))
  {
    var shifted := ShiftMaps(devices, k);
    forall d, space | d in shifted && d.MapOf(space).Some? ensures AllUpright(d.MapOf(space).value.ranges) {
      var i :| 0 <= i < |shifted| && shifted[i] == d;
      assert devices[i] in devices;
      forall r | r in d.MapOf(space).value.ranges ensures r.Upright() {
        ShiftMembers(devices[i].MapOf(space).value.ranges, k, r);
      }
    }
  }

  lemma ShiftConstrains(devices: seq<DeviceRanges>, k: int)
    ensures Constrained(ShiftMaps(devices, k)) == Constrained(devices)
  {
    var shifted := ShiftMaps(devices, k);
    forall space ensures space in Constrained(shifted) <==> space in Constrained(devices) {
      if space in Constrained(shifted) {
        var d :| d in shifted && space in d.maps && d.maps[space].Some?;
        var i :| 0 <= i < |shifted| && shifted[i] == d;
        assert devices[i] in devices && devices[i].maps[space].Some?;
      }
      if space in Constrained(devices) {
        var d :| d in devices && space in d.maps && d.maps[space].Some?;
        var i :| 0 <= i < |devices| && devices[i] == d;
        assert shifted[i] in shifted && shifted[i].maps[space].Some?;
      }
    }
  }

  lemma ShiftedSpace(devices: seq<DeviceRanges>, k: int, space: Space, m: SpaceMap, m': SpaceMap)
    requires MergeOf(m, PartsFor(devices, space, true), PartsFor(devices, space, false))
    requires MergeOf(m', PartsFor(ShiftMaps(devices, k), space, true), PartsFor(ShiftMaps(devices, k), space, false))
    ensures m' == SpaceMap(ShiftAll(m.ranges, k), m.declared)
  {
    var shifted := ShiftMaps(devices, k);
    MovedParts(devices, k, space, true);
    MovedParts(devices, k, space, false);
    MovedMerge(m, PartsFor(devices, space, true), PartsFor(shifted, space, true),
               PartsFor(devices, space, false), PartsFor(shifted, space, false), k);
    MergeOfSameParts(m', SpaceMap(ShiftAll(m.ranges, k), m.declared),
                     PartsFor(shifted, space, true), PartsFor(shifted, space, true),
                     PartsFor(shifted, space, false), PartsFor(shifted, space, false));
  }
}
