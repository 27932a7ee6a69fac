/**
 Splitting readable ranges around addresses a device does not serve
 (`_ranges_excluding` in src/modbus_connection/model/_ranges.py).
 */
module Carving {
  import opened Ranges

  /** The excluded addresses from `low` to `high`, ascending. */
  function CutsIn(low: int, high: int, excluded: set<int>): (cuts: seq<int>)
    ensures forall c :: c in cuts <==> c in excluded && low <= c <= high
    ensures Ascending(cuts)
    decreases high - low
  {
    if high < low then []
    else
      var rest := CutsIn(low + 1, high, excluded);
      assert forall i :: 0 <= i < |rest| ==> rest[i] in rest;
      if low in excluded then [low] + rest else rest
  }

  /** One turn of the splitting loop. */
  function CarveStep(c: Cutting, cut: int): Cutting {
    Cutting(if cut > c.start then c.pieces + [Range(c.start, cut - 1)] else c.pieces, cut + 1)
  }

  function CarveAll(low: int, cuts: seq<int>, n: nat): Cutting
    requires n <= |cuts|
  {
    if n == 0 then Cutting([], low) else CarveStep(CarveAll(low, cuts, n - 1), cuts[n - 1])
  }

  /** The runs of one interval between its excluded addresses. */
  function Carved(run: Range, excluded: set<int>): seq<Range> {
    var cuts := CutsIn(run.low, run.high, excluded);
    var c := CarveAll(run.low, cuts, |cuts|);
    if c.start <= run.high then c.pieces + [Range(c.start, run.high)] else c.pieces
  }

  function CarvedEach(intervals: seq<Range>, excluded: set<int>): (t: seq<seq<Range>>)
    ensures |t| == |intervals| && forall i :: 0 <= i < |t| ==> t[i] == Carved(intervals[i], excluded)
  {
    seq(|intervals|, i requires 0 <= i < |intervals| => Carved(intervals[i], excluded))
  }

  function RangesExcluding(intervals: seq<Range>, excluded: set<int>): seq<Range> {
    Flatten(CarvedEach(intervals, excluded))
  }

  /** The inner loop: cut one interval at every excluded address it covers. */
  method CarveRun(run: Range, excluded: set<int>) returns (pieces: seq<Range>)
    ensures pieces == Carved(run, excluded)
  {
    hide CutsIn;
    pieces := [];
    var start := run.low;
    var cuts := CutsIn(run.low, run.high, excluded);
    for j := 0 to |cuts|
      invariant Cutting(pieces, start) == CarveAll(run.low, cuts, j)
    {
      var cut := cuts[j];
      if cut > start {
        pieces := pieces + [Range(start, cut - 1)];
      }
      start := cut + 1;
    }
    if start <= run.high {
      pieces := pieces + [Range(start, run.high)];
    }
  }

  method SplitRanges(intervals: seq<Range>, excluded: set<int>) returns (result: seq<Range>)
    ensures result == RangesExcluding(intervals, excluded)
  {
    hide Carved;
    result := [];
    ghost var parts := CarvedEach(intervals, excluded);
    for i := 0 to |intervals|
      invariant result == FlattenUpTo(parts, i)
    {
      var pieces := CarveRun(intervals[i], excluded);
      result := result + pieces;
    }
  }

  /** None of the first `n` listed addresses lies from `x` to `y`. */
  ghost predicate Clear(cuts: seq<int>, n: nat, x: int, y: int)
    requires n <= |cuts|
  {
    forall i :: 0 <= i < n ==> !(x <= cuts[i] <= y || y <= cuts[i] <= x)
  }

  /** After `n` cuts, the pieces lie below `start` and share a run just where no cut falls. */
  ghost predicate CarvedBelow(c: Cutting, low: int, cuts: seq<int>, n: nat)
    requires n <= |cuts|
  {
    && low <= c.start && c.start == (if n == 0 then low else cuts[n - 1] + 1)
    && (forall i :: 0 <= i < n ==> low <= cuts[i] < c.start)
    && Ordered(c.pieces)
    && (forall p :: p in c.pieces ==> low <= p.low && p.high < c.start)
    && (forall x, y :: SameRun(c.pieces, x, y) <==> low <= x < c.start && low <= y < c.start && Clear(cuts, n, x, y))
  }

  lemma AddPiece(pieces: seq<Range>, p: Range)
    requires Ordered(pieces) && p.Upright() && forall q :: q in pieces ==> q.high < p.low
    ensures Ordered(pieces + [p])
    ensures forall x, y :: SameRun(pieces + [p], x, y) <==> SameRun(pieces, x, y) || (p.Has(x) && p.Has(y))
  {
    var now := pieces + [p];
    forall i, j | 0 <= i < j < |now| ensures now[i].high < now[j].low {
      assert now[i] == pieces[i] && pieces[i] in pieces;
    }
    forall x, y ensures SameRun(now, x, y) <==> SameRun(pieces, x, y) || (p.Has(x) && p.Has(y)) {
      AddedRun(pieces, p, x, y);
    }
  }

  lemma AddedRun(pieces: seq<Range>, p: Range, x: int, y: int)
    ensures SameRun(pieces + [p], x, y) <==> SameRun(pieces, x, y) || (p.Has(x) && p.Has(y))
  {
    SameRunSplit(pieces, [p], x, y);
    SameRunOne(p, x, y);
  }

  lemma {:induction false} CarveAllBelow(low: int, cuts: seq<int>, n: nat)
    requires n <= |cuts| && Ascending(cuts) && forall i :: 0 <= i < |cuts| ==> low <= cuts[i]
    ensures CarvedBelow(CarveAll(low, cuts, n), low, cuts, n)
  {
    if n > 0 {
      hide CarvedBelow, CarveStep;
      CarveAllBelow(low, cuts, n - 1);
      CarveOnce(CarveAll(low, cuts, n - 1), low, cuts, n - 1);
    }
  }

  lemma CarveOnce(c: Cutting, low: int, cuts: seq<int>, n: nat)
    requires n < |cuts| && CarvedBelow(c, low, cuts, n) && low <= cuts[n] && forall i :: 0 <= i < n ==> cuts[i] < cuts[n]
    ensures CarvedBelow(CarveStep(c, cuts[n]), low, cuts, n + 1)
  {
    var next := CarveStep(c, cuts[n]);
    if cuts[n] > c.start { AddPiece(c.pieces, Range(c.start, cuts[n] - 1)); }
    forall x, y ensures SameRun(next.pieces, x, y) <==>
                        low <= x < next.start && low <= y < next.start && Clear(cuts, n + 1, x, y) {
      assert Clear(cuts, n + 1, x, y) <==> Clear(cuts, n, x, y) && !(x <= cuts[n] <= y || y <= cuts[n] <= x);
      ClearAround(c, low, cuts, n, x, y);
      ClearAround(c, low, cuts, n, y, x);
    }
  }

  /** Nothing is cut from `start` on, and a pair on both sides of it is cut. */
  lemma ClearAround(c: Cutting, low: int, cuts: seq<int>, n: nat, x: int, y: int)
    requires n <= |cuts| && CarvedBelow(c, low, cuts, n)
    ensures c.start <= x && c.start <= y ==> Clear(cuts, n, x, y)
    ensures low <= x < c.start <= y ==> !Clear(cuts, n, x, y) && !Clear(cuts, n, y, x)
  {
  }

  /** No excluded address lies from `x` to `y`. */
  ghost predicate Served(excluded: set<int>, x: int, y: int) {
    forall z :: z in excluded ==> !(x <= z <= y || y <= z <= x)
  }

  /** Carving keeps exactly the runs of one interval that hold no excluded address. */
  lemma CarvedMeaning(run: Range, excluded: set<int>)
    requires run.Upright()
    ensures Ordered(Carved(run, excluded))
    ensures forall x, y :: SameRun(Carved(run, excluded), x, y) <==> run.Has(x) && run.Has(y) && Served(excluded, x, y)
  {
    var cuts := CutsIn(run.low, run.high, excluded);
    var n := |cuts|;
    var c := CarveAll(run.low, cuts, n);
    forall i | 0 <= i < n ensures run.low <= cuts[i] <= run.high { assert cuts[i] in cuts; }
    CarveAllBelow(run.low, cuts, n);
    if c.start <= run.high { AddPiece(c.pieces, Range(c.start, run.high)); }
    forall x, y ensures SameRun(Carved(run, excluded), x, y) <==> run.Has(x) && run.Has(y) && Served(excluded, x, y) {
      ClearAround(c, run.low, cuts, n, x, y);
      ClearAround(c, run.low, cuts, n, y, x);
      if run.Has(x) && run.Has(y) { ClearMeansServed(run, excluded, x, y); }
    }
  }

  lemma ClearMeansServed(run: Range, excluded: set<int>, x: int, y: int)
    requires run.Has(x) && run.Has(y)
    ensures var cuts := CutsIn(run.low, run.high, excluded); Clear(cuts, |cuts|, x, y) <==> Served(excluded, x, y)
  {
    var cuts := CutsIn(run.low, run.high, excluded);
    if Clear(cuts, |cuts|, x, y) {
      forall z | z in excluded ensures !(x <= z <= y || y <= z <= x) {
        if run.Has(z) {
          assert z in cuts;
          var i :| 0 <= i < |cuts| && cuts[i] == z;
        }
      }
    }
    if Served(excluded, x, y) {
      forall i | 0 <= i < |cuts| ensures !(x <= cuts[i] <= y || y <= cuts[i] <= x) { assert cuts[i] in cuts; }
    }
  }

  /** What carving makes of each interval. */
  ghost predicate CarvedFrom(parts: seq<seq<Range>>, intervals: seq<Range>, excluded: set<int>) {
    && |parts| == |intervals|
    && forall i :: 0 <= i < |parts| ==> CarvedPart(parts[i], intervals[i], excluded)
  }

  ghost predicate CarvedPart(part: seq<Range>, run: Range, excluded: set<int>) {
    && Ordered(part)
    && forall x, y :: SameRun(part, x, y) <==> run.Has(x) && run.Has(y) && Served(excluded, x, y)
  }

  lemma EachIsCarved(intervals: seq<Range>, excluded: set<int>)
    requires AllUpright(intervals)
    ensures CarvedFrom(CarvedEach(intervals, excluded), intervals, excluded)
  {
    forall i | 0 <= i < |intervals| ensures CarvedPart(Carved(intervals[i], excluded), intervals[i], excluded) {
      assert intervals[i] in intervals;
      CarvedMeaning(intervals[i], excluded);
    }
  }

  /** Two addresses share a run of the result just when one interval holds both and nothing between is excluded. */
  lemma ExcludingMeaning(intervals: seq<Range>, excluded: set<int>)
    requires AllUpright(intervals)
    ensures AllUpright(RangesExcluding(intervals, excluded))
    ensures forall x, y :: SameRun(RangesExcluding(intervals, excluded), x, y) <==>
                           SameRun(intervals, x, y) && Served(excluded, x, y)
  {
    EachIsCarved(intervals, excluded);
    PartsMean(CarvedEach(intervals, excluded), intervals, excluded);
  }

  lemma PartsMean(parts: seq<seq<Range>>, intervals: seq<Range>, excluded: set<int>)
    requires CarvedFrom(parts, intervals, excluded)
    ensures AllUpright(Flatten(parts))
    ensures forall x, y :: SameRun(Flatten(parts), x, y) <==> SameRun(intervals, x, y) && Served(excluded, x, y)
  {
    forall r | r in Flatten(parts) ensures r.Upright() {
      FlattenMembers(parts, |parts|, r);
      var i :| 0 <= i < |parts| && r in parts[i];
      assert CarvedPart(parts[i], intervals[i], excluded);
    }
    forall x, y ensures SameRun(Flatten(parts), x, y) <==> SameRun(intervals, x, y) && Served(excluded, x, y) {
      FlattenRuns(parts, |parts|, x, y);
      if RunInPart(parts, |parts|, x, y) {
        var i :| 0 <= i < |parts| && SameRun(parts[i], x, y);
        assert CarvedPart(parts[i], intervals[i], excluded) && intervals[i] in intervals;
      }
      if SameRun(intervals, x, y) && Served(excluded, x, y) {
        var i :| 0 <= i < |intervals| && intervals[i].Has(x) && intervals[i].Has(y);
        assert CarvedPart(parts[i], intervals[i], excluded);
      }
    }
  }

  // ----- when the result is a valid map -----

  /** Splitting the ranges of a valid map leaves a valid map. */
  lemma SplittingKeepsValid(intervals: seq<Range>, excluded: set<int>)
    requires Disjoint(intervals)
    ensures Disjoint(RangesExcluding(intervals, excluded))
  {
    EachIsCarved(intervals, excluded);
    PartsStayApart(CarvedEach(intervals, excluded), intervals, excluded);
  }

  lemma PartsStayApart(parts: seq<seq<Range>>, intervals: seq<Range>, excluded: set<int>)
    requires CarvedFrom(parts, intervals, excluded) && Disjoint(intervals)
    ensures Disjoint(Flatten(parts))
  {
    forall i, x | 0 <= i < |parts| && Covers(parts[i], x) ensures intervals[i].Has(x) {
      assert CarvedPart(parts[i], intervals[i], excluded);
      CoversMeansRun(parts[i], x);
    }
    forall i | 0 <= i < |parts| ensures Disjoint(parts[i]) {
      assert CarvedPart(parts[i], intervals[i], excluded);
    }
    FlattenDisjoint(parts, |parts|);
  }

  /** Ranges that share an address which is not excluded still share it after splitting. */
  lemma OverlapSurvives(intervals: seq<Range>, excluded: set<int>, i: nat, j: nat, x: int)
    requires AllUpright(intervals) && i < j < |intervals|
    requires intervals[i].Has(x) && intervals[j].Has(x) && x !in excluded
    ensures !Disjoint(RangesExcluding(intervals, excluded))
  {
    EachIsCarved(intervals, excluded);
    PartsOverlap(CarvedEach(intervals, excluded), intervals, excluded, i, j, x);
  }

  lemma PartsOverlap(parts: seq<seq<Range>>, intervals: seq<Range>, excluded: set<int>, i: nat, j: nat, x: int)
    requires CarvedFrom(parts, intervals, excluded) && i < j < |intervals|
    requires intervals[i].Has(x) && intervals[j].Has(x) && x !in excluded
    ensures !Disjoint(Flatten(parts))
  {
    assert CarvedPart(parts[i], intervals[i], excluded) && CarvedPart(parts[j], intervals[j], excluded);
    assert Served(excluded, x, x);
    CoversMeansRun(parts[i], x);
    CoversMeansRun(parts[j], x);
    FlattenOverlaps(parts, i, j, x);
  }
}
