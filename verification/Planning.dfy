/**
 Grouping address spans into block reads, and executing them
 (src/modbus_connection/model/_planning.py).

 A span of `width` registers at `address` is the range from `address` to
 `address + width - 1`, and so is a block: pairs of address and width sort in
 the same order as pairs of first and last address.
 */
module Planning {
  import opened Wrappers
  import opened Ranges
  import opened Merging

  const MAX_GAP := 16
  const MAX_SPAN := 125

  /** The `ValueError` planning raises, whatever its message. */
  datatype PlanError = PlanError

  /** The checks made before any block is formed. */
  predicate Accepted(spans: seq<Range>, ranges: Option<seq<Range>>, maxSpan: int) {
    && (ranges.Some? ==> Valid(ranges.value))
    && (forall s :: s in spans ==> s.Width() <= maxSpan && (ranges.Some? ==> Fits(s, ranges.value)))
  }

  /** First and last address are found in the same readable range. */
  predicate Fits(s: Range, ranges: seq<Range>) {
    RangeOf(s.low, ranges).Some? && RangeOf(s.low, ranges) == RangeOf(s.high, ranges)
  }

  function RangeAt(x: int, ranges: Option<seq<Range>>): Option<Range> {
    if ranges.Some? then RangeOf(x, ranges.value) else None
  }

  /** Whether a span may continue the current block, before its width is considered. */
  predicate Mergeable(block: Range, s: Range, ranges: Option<seq<Range>>, maxGap: int) {
    if ranges.None? then s.low - block.high <= maxGap
    else RangeAt(s.low, ranges) == RangeAt(block.low, ranges)
  }

  predicate Continues(block: Range, s: Range, ranges: Option<seq<Range>>, maxGap: int, maxSpan: int) {
    Mergeable(block, s, ranges, maxGap) && s.high - block.low + 1 <= maxSpan
  }

  /** One turn of the grouping loop; the last block is still open. */
  function Extend(blocks: seq<Range>, s: Range, ranges: Option<seq<Range>>, maxGap: int, maxSpan: int): seq<Range> {
    if blocks == [] then [s]
    else
      var last := blocks[|blocks| - 1];
      if Continues(last, s, ranges, maxGap, maxSpan) then
        blocks[..|blocks| - 1] + [Range(last.low, Max(last.high, s.high))]
      else blocks + [s]
  }

  /** The blocks after each span of a sorted list. */
  function Blocks(ordered: seq<Range>, ranges: Option<seq<Range>>, maxGap: int, maxSpan: int): (blocks: seq<Range>)
    ensures ordered != [] ==> blocks != []
  {
    if ordered == [] then []
    else
      var n := |ordered| - 1;
      Extend(Blocks(ordered[..n], ranges, maxGap, maxSpan), ordered[n], ranges, maxGap, maxSpan)
  }

  function Planned(spans: seq<Range>, ranges: Option<seq<Range>>, maxGap: int, maxSpan: int)
    : Result<seq<Range>, PlanError>
  {
    if Accepted(spans, ranges, maxSpan) then Ok(Blocks(SortUnique(spans), ranges, maxGap, maxSpan)) else Err(PlanError)
  }

  method PlanBlocks(spans: seq<Range>, ranges: Option<seq<Range>>, maxGap: int := MAX_GAP, maxSpan: int := MAX_SPAN)
    returns (r: Result<seq<Range>, PlanError>)
    ensures r == Planned(spans, ranges, maxGap, maxSpan)
  {
    hide Sort, Dedup, Valid, Blocks, Fits;
    if ranges.Some? && !Valid(ranges.value) {
      return Err(PlanError);
    }
    var ordered := SortUnique(spans);
    SortUniqueSorts(spans);
    if ordered == [] {
      assert forall s :: s in spans ==> s in ordered;
      NothingPlanned(ranges, maxGap, maxSpan);
      return Ok([]);
    }
    var accepted := CheckSpans(ordered, ranges, maxSpan);
    if !accepted {
      return Err(PlanError);
    }
    var blocks := GroupSpans(ordered, ranges, maxGap, maxSpan);
    r := Ok(blocks);
  }

  lemma NothingPlanned(ranges: Option<seq<Range>>, maxGap: int, maxSpan: int)
    ensures Blocks([], ranges, maxGap, maxSpan) == []
  {
  }

  /** The loop that refuses a span too wide or outside the map. */
  method CheckSpans(ordered: seq<Range>, ranges: Option<seq<Range>>, maxSpan: int) returns (ok: bool)
    requires ranges.Some? ==> Valid(ranges.value)
    ensures ok <==> Accepted(ordered, ranges, maxSpan)
  {
    for i := 0 to |ordered|
      invariant forall s :: s in ordered[..i] ==> s.Width() <= maxSpan && (ranges.Some? ==> Fits(s, ranges.value))
    {
      var span := ordered[i];
      assert ordered[..i + 1] == ordered[..i] + [span];
      if span.Width() > maxSpan {
        return false;
      }
      if ranges.Some? {
        var spanRange := RangeOf(span.low, ranges.value);
        if spanRange.None? || spanRange != RangeOf(span.high, ranges.value) {
          assert !Fits(span, ranges.value);
          return false;
        }
      }
    }
    assert ordered[..|ordered|] == ordered;
    ok := true;
  }

  /** The loop that grows a block or opens the next. */
  method GroupSpans(ordered: seq<Range>, ranges: Option<seq<Range>>, maxGap: int, maxSpan: int)
    returns (blocks: seq<Range>)
    requires ordered != []
    ensures blocks == Blocks(ordered, ranges, maxGap, maxSpan)
  {
    blocks := [];
    var blockStart, blockEnd := ordered[0].low, ordered[0].high;
    var blockRange := RangeAt(blockStart, ranges);
    assert ordered[..1][..0] == [];
    for i := 1 to |ordered|
      invariant blocks + [Range(blockStart, blockEnd)] == Blocks(ordered[..i], ranges, maxGap, maxSpan)
      invariant blockRange == RangeAt(blockStart, ranges)
    {
      var Range(address, end) := ordered[i];
      assert ordered[..i + 1][..i] == ordered[..i];
      var mergeable := if ranges.None? then address - blockEnd <= maxGap else RangeAt(address, ranges) == blockRange;
      if mergeable && end - blockStart + 1 <= maxSpan {
        blockEnd := Max(blockEnd, end);
      } else {
        blocks := blocks + [Range(blockStart, blockEnd)];
        blockStart, blockEnd := address, end;
        blockRange := RangeAt(address, ranges);
      }
    }
    assert ordered[..|ordered|] == ordered;
    blocks := blocks + [Range(blockStart, blockEnd)];
  }

  // ----- what any plan must respect -----

  /** Planning without a map: some span that starts earlier in the block reaches within the gap of `s`. */
  ghost predicate Bridged(block: Range, s: Range, spans: seq<Range>, maxGap: int) {
    exists t :: t in spans && t != s && Before(t, s) && block.low <= t.low && s.low - t.high <= maxGap
  }

  /**
   What a block may span: inside one readable range where a map is given, and
   otherwise no gap wider than `maxGap` between the spans it holds.
   */
  ghost predicate Allowed(block: Range, spans: seq<Range>, ranges: Option<seq<Range>>, maxGap: int) {
    match ranges
    case Some(map_) => exists r :: r in map_ && block.Within(r)
    case None =>
      forall s {:trigger Bridged(block, s, spans, maxGap)} ::
        s in spans && s.Within(block) && block.low < s.low ==> Bridged(block, s, spans, maxGap)
  }

  /** The span lies whole in some block. */
  ghost predicate Housed(s: Range, blocks: seq<Range>) {
    exists b :: b in blocks && s.Within(b)
  }

  /** Every span is read whole. */
  ghost predicate Whole(spans: seq<Range>, blocks: seq<Range>) {
    forall s {:trigger Housed(s, blocks)} :: s in spans ==> Housed(s, blocks)
  }

  ghost predicate Respects(b: Range, spans: seq<Range>, ranges: Option<seq<Range>>, maxGap: int, maxSpan: int) {
    b.Width() <= maxSpan && Allowed(b, spans, ranges, maxGap)
  }

  /** Any list of blocks that reads every span whole and respects the limits. */
  ghost predicate Admissible(plan: seq<Range>, spans: seq<Range>, ranges: Option<seq<Range>>, maxGap: int, maxSpan: int) {
    && Whole(spans, plan)
    && (forall b {:trigger Respects(b, spans, ranges, maxGap, maxSpan)} :: b in plan ==>
          Respects(b, spans, ranges, maxGap, maxSpan))
  }

  /** Some span that starts before `s` ends within the gap of it. */
  ghost predicate Near(s: Range, spans: seq<Range>, maxGap: int) {
    exists t :: t in spans && t != s && Before(t, s) && s.low - t.high <= maxGap
  }

  /** Some span that starts before `s` has an address in the block or after its start. */
  ghost predicate Follows(block: Range, s: Range, spans: seq<Range>) {
    exists t :: t in spans && t != s && Before(t, s) && block.low <= t.high
  }

  /**
   The limits alone, wherever a block starts and ends: inside one readable range, and without a map
   no span in the block lies further than `maxGap` after all that the block holds of earlier spans.
   */
  ghost predicate Permitted(b: Range, spans: seq<Range>, ranges: Option<seq<Range>>, maxGap: int, maxSpan: int) {
    && b.Width() <= maxSpan
    && match ranges
       case Some(map_) => exists r :: r in map_ && b.Within(r)
       case None =>
         forall s {:trigger Near(s, spans, maxGap)} ::
           s in spans && s.Within(b) && Follows(b, s, spans) ==> Near(s, spans, maxGap)
  }

  /** Any list of blocks at all that reads every span whole within the limits. */
  ghost predicate Rival(plan: seq<Range>, spans: seq<Range>, ranges: Option<seq<Range>>, maxGap: int, maxSpan: int) {
    && Whole(spans, plan)
    && (forall b {:trigger Permitted(b, spans, ranges, maxGap, maxSpan)} :: b in plan ==>
          Permitted(b, spans, ranges, maxGap, maxSpan))
  }

  /** What is admissible is a rival, so the plan made is one of those it is compared with. */
  lemma AdmissibleIsRival(plan: seq<Range>, spans: seq<Range>, ranges: Option<seq<Range>>, maxGap: int, maxSpan: int)
    requires AllUpright(spans) && (ranges.None? ==> 0 <= maxGap)
    requires Admissible(plan, spans, ranges, maxGap, maxSpan)
    ensures Rival(plan, spans, ranges, maxGap, maxSpan)
  {
    forall b | b in plan ensures Permitted(b, spans, ranges, maxGap, maxSpan) {
      assert Respects(b, spans, ranges, maxGap, maxSpan);
      if ranges.None? {
        forall s | s in spans && s.Within(b) && Follows(b, s, spans) ensures Near(s, spans, maxGap) {
          if b.low < s.low { assert Bridged(b, s, spans, maxGap); }
        }
      }
    }
  }

  ghost predicate Occupied(spans: seq<Range>, x: int) {
    exists t :: t in spans && t.Has(x)
  }

  /** In terms of addresses: between two that spans occupy, further apart than the gap, lies another. */
  ghost predicate NoWideGap(b: Range, spans: seq<Range>, maxGap: int) {
    forall x, y :: b.Has(x) && b.Has(y) && x + maxGap < y && Occupied(spans, x) && Occupied(spans, y) ==>
      exists z :: x < z < y && Occupied(spans, z)
  }

  /** A block that bridges no wide gap keeps the limits, so the plan is minimal among all lists of those. */
  lemma NoWideGapIsPermitted(b: Range, spans: seq<Range>, maxGap: int, maxSpan: int)
    requires AllUpright(spans) && 0 <= maxGap
    requires b.Width() <= maxSpan && NoWideGap(b, spans, maxGap)
    ensures Permitted(b, spans, None, maxGap, maxSpan)
  {
    forall s | s in spans && s.Within(b) && Follows(b, s, spans) ensures Near(s, spans, maxGap) {
      var first :| first in spans && first != s && Before(first, s) && b.low <= first.high;
      var t := LatestBefore(spans, |spans|, s, first);
      assert spans[..|spans|] == spans;
      assert Occupied(spans, t.high) && Occupied(spans, s.low);
      forall z | t.high < z < s.low ensures !Occupied(spans, z) {
        assert forall u :: u in spans && u.Has(z) ==> Before(u, s) && u != s;
      }
    }
  }

  /** Of the spans that start before `s`, one that ends last. */
  ghost function LatestBefore(spans: seq<Range>, n: nat, s: Range, first: Range): (t: Range)
    requires n <= |spans| && first in spans && first != s && Before(first, s)
    ensures t in spans && t != s && Before(t, s) && first.high <= t.high
    ensures forall u :: u in spans[..n] && u != s && Before(u, s) ==> u.high <= t.high
  {
    if n == 0 then first
    else
      assert spans[..n] == spans[..n - 1] + [spans[n - 1]];
      var t, u := LatestBefore(spans, n - 1, s, first), spans[n - 1];
      if u != s && Before(u, s) && t.high < u.high then u else t
  }

  /** The conditions under which planning is attempted once the checks have passed. */
  ghost predicate Plannable(spans: seq<Range>, ranges: Option<seq<Range>>, maxGap: int, maxSpan: int) {
    && AllUpright(spans)
    && Accepted(spans, ranges, maxSpan)
    && (ranges.None? ==> 0 <= maxGap)
  }

  // ----- the shape of a plan -----

  /** Both ends of the blocks strictly increase. */
  ghost predicate Advancing(blocks: seq<Range>) {
    forall i, j :: 0 <= i < j < |blocks| ==> blocks[i].low < blocks[j].low && blocks[i].high < blocks[j].high
  }

  /** The span that opened each block. */
  ghost function Openers(ordered: seq<Range>, ranges: Option<seq<Range>>, maxGap: int, maxSpan: int): seq<Range> {
    if ordered == [] then []
    else
      var n := |ordered| - 1;
      var blocks := Blocks(ordered[..n], ranges, maxGap, maxSpan);
      var openers := Openers(ordered[..n], ranges, maxGap, maxSpan);
      if blocks != [] && Continues(blocks[|blocks| - 1], ordered[n], ranges, maxGap, maxSpan) then openers
      else openers + [ordered[n]]
  }

  /** Some span that starts in the block ends where it ends. */
  ghost predicate EndsOnSpan(b: Range, spans: seq<Range>) {
    exists t :: t in spans && b.low <= t.low && t.high == b.high
  }

  /** Each block starts with its opener and ends where some span in it ends. */
  ghost predicate OnSpans(ordered: seq<Range>, blocks: seq<Range>, openers: seq<Range>) {
    && |openers| == |blocks|
    && (forall i {:trigger openers[i]} :: 0 <= i < |blocks| ==>
          openers[i] in ordered && openers[i].low == blocks[i].low && openers[i].high <= blocks[i].high)
    && (forall i {:trigger EndsOnSpan(blocks[i], ordered)} :: 0 <= i < |blocks| ==> EndsOnSpan(blocks[i], ordered))
  }

  ghost predicate WithinLimits(ordered: seq<Range>, blocks: seq<Range>, ranges: Option<seq<Range>>, maxGap: int, maxSpan: int) {
    forall i :: 0 <= i < |blocks| ==> blocks[i].Width() <= maxSpan && Allowed(blocks[i], ordered, ranges, maxGap)
  }

  /** An opener could not continue the block before it, and everything sorted before it ended there. */
  ghost predicate Forced(ordered: seq<Range>, blocks: seq<Range>, openers: seq<Range>,
                         ranges: Option<seq<Range>>, maxGap: int, maxSpan: int)
    requires |openers| == |blocks|
  {
    forall i :: 0 < i < |blocks| ==>
      && !Continues(blocks[i - 1], openers[i], ranges, maxGap, maxSpan)
      && EndBy(ordered, openers[i], blocks[i - 1].high)
  }

  ghost predicate EndBy(ordered: seq<Range>, opener: Range, end: int) {
    forall t :: t in ordered && Before(t, opener) && t != opener ==> t.high <= end
  }

  /** No span ends after the last block. */
  ghost predicate Reached(ordered: seq<Range>, blocks: seq<Range>)
    requires blocks != []
  {
    forall t :: t in ordered ==> t.high <= blocks[|blocks| - 1].high
  }

  ghost predicate PlanShape(ordered: seq<Range>, blocks: seq<Range>, openers: seq<Range>,
                            ranges: Option<seq<Range>>, maxGap: int, maxSpan: int)
  {
    && blocks != [] && Advancing(blocks) && Reached(ordered, blocks)
    && Whole(ordered, blocks)
    && OnSpans(ordered, blocks, openers)
    && WithinLimits(ordered, blocks, ranges, maxGap, maxSpan)
    && Forced(ordered, blocks, openers, ranges, maxGap, maxSpan)
  }

  lemma {:induction false} PlanHasShape(ordered: seq<Range>, ranges: Option<seq<Range>>, maxGap: int, maxSpan: int)
    requires ordered != [] && Sorted(ordered) && Distinct(ordered)
    requires Plannable(ordered, ranges, maxGap, maxSpan)
    ensures PlanShape(ordered, Blocks(ordered, ranges, maxGap, maxSpan), Openers(ordered, ranges, maxGap, maxSpan),
                      ranges, maxGap, maxSpan)
  {
    var n := |ordered| - 1;
    var s := ordered[n];
    assert ordered == ordered[..n] + [s];
    if n == 0 {
      assert ordered == [s] && ordered[..n] == [];
      FirstBlock(s, ranges, maxGap, maxSpan);
    } else {
      assert forall t :: t in ordered[..n] ==> t in ordered;
      PlanHasShape(ordered[..n], ranges, maxGap, maxSpan);
      LastInOrder(ordered);
      PlanStep(ordered[..n], s, ranges, maxGap, maxSpan);
    }
  }

  lemma PlanStep(ordered: seq<Range>, s: Range, ranges: Option<seq<Range>>, maxGap: int, maxSpan: int)
    requires ordered != []
    requires Step(ordered, s, Blocks(ordered, ranges, maxGap, maxSpan), Openers(ordered, ranges, maxGap, maxSpan),
                  ranges, maxGap, maxSpan)
    ensures PlanShape(ordered + [s], Blocks(ordered + [s], ranges, maxGap, maxSpan),
                      Openers(ordered + [s], ranges, maxGap, maxSpan), ranges, maxGap, maxSpan)
  {
    hide Allowed, Accepted, OnSpans, Forced, Whole, Continues;
    var blocks := Blocks(ordered, ranges, maxGap, maxSpan);
    var openers := Openers(ordered, ranges, maxGap, maxSpan);
    var last := blocks[|blocks| - 1];
    assert (ordered + [s])[..|ordered|] == ordered;
    if Continues(last, s, ranges, maxGap, maxSpan) {
      var grown := Range(last.low, Max(last.high, s.high));
      var now := blocks[..|blocks| - 1] + [grown];
      assert Blocks(ordered + [s], ranges, maxGap, maxSpan) == now;
      GrowBlock(ordered, s, blocks, openers, grown, now, ranges, maxGap, maxSpan);
    } else {
      assert Blocks(ordered + [s], ranges, maxGap, maxSpan) == blocks + [s];
      OpenBlock(ordered, s, blocks, openers, ranges, maxGap, maxSpan);
    }
  }

  lemma LastInOrder(ordered: seq<Range>)
    requires ordered != [] && Sorted(ordered) && Distinct(ordered)
    ensures var s := ordered[|ordered| - 1]; forall t :: t in ordered[..|ordered| - 1] ==> Before(t, s) && t != s
  {
  }

  lemma FitsInOne(s: Range, ranges: seq<Range>)
    requires Valid(ranges) && s.Upright()
    ensures Fits(s, ranges) <==> exists r :: r in ranges && s.Within(r)
  {
    RangeOfFinds(s.low, ranges);
    RangeOfFinds(s.high, ranges);
    if r :| r in ranges && s.Within(r) {
      RangeOfIs(s.low, r, ranges);
      RangeOfIs(s.high, r, ranges);
    }
  }

  lemma FirstBlock(s: Range, ranges: Option<seq<Range>>, maxGap: int, maxSpan: int)
    requires Plannable([s], ranges, maxGap, maxSpan)
    ensures PlanShape([s], [s], [s], ranges, maxGap, maxSpan)
  {
    assert s in [s] && s.Upright() && s.Width() <= maxSpan;
    assert EndsOnSpan(s, [s]);
    assert Whole([s], [s]);
    assert OnSpans([s], [s], [s]);
    assert Allowed(s, [s], ranges, maxGap) by {
      if ranges.Some? { FitsInOne(s, ranges.value); }
    }
    assert WithinLimits([s], [s], ranges, maxGap, maxSpan);
  }

  /** What both steps of the loop start from. */
  ghost predicate Step(ordered: seq<Range>, s: Range, blocks: seq<Range>, openers: seq<Range>,
                       ranges: Option<seq<Range>>, maxGap: int, maxSpan: int)
  {
    && PlanShape(ordered, blocks, openers, ranges, maxGap, maxSpan)
    && Plannable(ordered + [s], ranges, maxGap, maxSpan)
    && (forall t :: t in ordered ==> Before(t, s) && t != s)
  }

  /** `now` is `blocks` with its last block grown to end with `s`. */
  ghost predicate Grown(blocks: seq<Range>, s: Range, grown: Range, now: seq<Range>) {
    && blocks != [] && |now| == |blocks|
    && (forall i :: 0 <= i < |blocks| - 1 ==> now[i] == blocks[i])
    && now[|blocks| - 1] == grown
    && grown == Range(blocks[|blocks| - 1].low, Max(blocks[|blocks| - 1].high, s.high))
  }

  lemma GrowBlock(ordered: seq<Range>, s: Range, blocks: seq<Range>, openers: seq<Range>, grown: Range, now: seq<Range>,
                  ranges: Option<seq<Range>>, maxGap: int, maxSpan: int)
    requires Step(ordered, s, blocks, openers, ranges, maxGap, maxSpan)
    requires Continues(blocks[|blocks| - 1], s, ranges, maxGap, maxSpan)
    requires Grown(blocks, s, grown, now)
    ensures PlanShape(ordered + [s], now, openers, ranges, maxGap, maxSpan)
  {
    var k := |blocks| - 1;
    assert openers[k] in ordered && blocks[k].low <= s.low;
    assert s in ordered + [s];
    GrowKeepsWhole(ordered, s, blocks, grown, now);
    GrowKeepsSpans(ordered, s, blocks, openers, grown, now);
    GrowKeepsLimits(ordered, s, blocks, openers, grown, now, ranges, maxGap, maxSpan);
    GrowKeepsForced(ordered, s, blocks, openers, grown, now, ranges, maxGap, maxSpan);
  }

  lemma GrowKeepsWhole(ordered: seq<Range>, s: Range, blocks: seq<Range>, grown: Range, now: seq<Range>)
    requires Grown(blocks, s, grown, now) && Whole(ordered, blocks) && blocks[|blocks| - 1].low <= s.low
    ensures Whole(ordered + [s], now)
  {
    assert grown in now;
    forall t | t in ordered + [s] ensures Housed(t, now) {
      if t != s {
        assert Housed(t, blocks);
        var i :| 0 <= i < |blocks| && t.Within(blocks[i]);
        assert now[i] in now && t.Within(now[i]);
      }
    }
  }

  lemma GrowKeepsSpans(ordered: seq<Range>, s: Range, blocks: seq<Range>, openers: seq<Range>, grown: Range, now: seq<Range>)
    requires Grown(blocks, s, grown, now) && OnSpans(ordered, blocks, openers) && blocks[|blocks| - 1].low <= s.low
    ensures OnSpans(ordered + [s], now, openers)
  {
    assert s in ordered + [s];
    forall i | 0 <= i < |now| ensures EndsOnSpan(now[i], ordered + [s]) {
      assert EndsOnSpan(blocks[i], ordered);
      var t :| t in ordered && blocks[i].low <= t.low && t.high == blocks[i].high;
      assert t in ordered + [s];
    }
  }

  lemma GrowKeepsLimits(ordered: seq<Range>, s: Range, blocks: seq<Range>, openers: seq<Range>, grown: Range, now: seq<Range>,
                        ranges: Option<seq<Range>>, maxGap: int, maxSpan: int)
    requires Step(ordered, s, blocks, openers, ranges, maxGap, maxSpan)
    requires Continues(blocks[|blocks| - 1], s, ranges, maxGap, maxSpan)
    requires Grown(blocks, s, grown, now)
    ensures WithinLimits(ordered + [s], now, ranges, maxGap, maxSpan)
  {
    var k := |blocks| - 1;
    assert s in ordered + [s] && s.Upright();
    assert openers[k].Upright() && blocks[k].Upright() by { assert openers[k] in ordered + [s]; }
    forall i | 0 <= i <= k ensures now[i].Width() <= maxSpan && Allowed(now[i], ordered + [s], ranges, maxGap) {
      assert blocks[i].Width() <= maxSpan && Allowed(blocks[i], ordered, ranges, maxGap);
      if ranges.None? {
        GrowBridges(ordered, s, blocks, i, maxGap, now[i]);
      } else if i == k {
        GrowInRange(s, blocks[k], grown, ranges.value);
      }
    }
  }

  lemma GrowKeepsForced(ordered: seq<Range>, s: Range, blocks: seq<Range>, openers: seq<Range>, grown: Range, now: seq<Range>,
                        ranges: Option<seq<Range>>, maxGap: int, maxSpan: int)
    requires Grown(blocks, s, grown, now) && OnSpans(ordered, blocks, openers)
    requires Forced(ordered, blocks, openers, ranges, maxGap, maxSpan)
    requires forall t :: t in ordered ==> Before(t, s) && t != s
    ensures Forced(ordered + [s], now, openers, ranges, maxGap, maxSpan)
  {
    forall i | 0 < i < |now|
      ensures !Continues(now[i - 1], openers[i], ranges, maxGap, maxSpan) && EndBy(ordered + [s], openers[i], now[i - 1].high)
    {
      assert EndBy(ordered, openers[i], blocks[i - 1].high);
      assert Before(openers[i], s) && openers[i] != s;
    }
  }

  lemma GrowInRange(s: Range, last: Range, grown: Range, ranges: seq<Range>)
    requires Valid(ranges) && s.Upright() && last.Upright() && Fits(s, ranges)
    requires exists r :: r in ranges && last.Within(r)
    requires RangeOf(s.low, ranges) == RangeOf(last.low, ranges)
    requires grown == Range(last.low, Max(last.high, s.high))
    ensures exists r :: r in ranges && grown.Within(r)
  {
    var r :| r in ranges && last.Within(r);
    RangeOfIs(last.low, r, ranges);
    RangeOfFinds(s.low, ranges);
    RangeOfFinds(s.high, ranges);
  }

  lemma GrowBridges(ordered: seq<Range>, s: Range, blocks: seq<Range>, i: nat, maxGap: int, now: Range)
    requires 0 <= maxGap && i < |blocks| && Advancing(blocks) && Reached(ordered, blocks)
    requires forall t :: t in ordered ==> Before(t, s) && t != s
    requires s.Upright() && EndsOnSpan(blocks[|blocks| - 1], ordered)
    requires Allowed(blocks[i], ordered, None, maxGap)
    requires s.low - blocks[|blocks| - 1].high <= maxGap
    requires i < |blocks| - 1 ==> now == blocks[i]
    requires i == |blocks| - 1 ==> now == Range(blocks[i].low, Max(blocks[i].high, s.high))
    ensures Allowed(now, ordered + [s], None, maxGap)
  {
    var last := blocks[|blocks| - 1];
    forall u | u in ordered + [s] && u.Within(now) && now.low < u.low ensures Bridged(now, u, ordered + [s], maxGap) {
      if u == s {
        var t :| t in ordered && last.low <= t.low && t.high == last.high;
        assert t in ordered + [s];
      } else {
        assert Bridged(blocks[i], u, ordered, maxGap);
        var t :| t in ordered && t != u && Before(t, u) && blocks[i].low <= t.low && u.low - t.high <= maxGap;
        assert t in ordered + [s];
      }
    }
  }

  lemma OpenBlock(ordered: seq<Range>, s: Range, blocks: seq<Range>, openers: seq<Range>,
                  ranges: Option<seq<Range>>, maxGap: int, maxSpan: int)
    requires Step(ordered, s, blocks, openers, ranges, maxGap, maxSpan)
    requires !Continues(blocks[|blocks| - 1], s, ranges, maxGap, maxSpan)
    ensures PlanShape(ordered + [s], blocks + [s], openers + [s], ranges, maxGap, maxSpan)
  {
    var k := |blocks| - 1;
    assert s in ordered + [s] && openers[k] in ordered && openers[k] in ordered + [s];
    OpensLater(s, blocks[k], ordered, ranges, maxGap, maxSpan);
    OpenKeepsWhole(ordered, s, blocks);
    OpenKeepsSpans(ordered, s, blocks, openers);
    OpenKeepsLimits(ordered, s, blocks, ranges, maxGap, maxSpan);
    OpenKeepsForced(ordered, s, blocks, openers, ranges, maxGap, maxSpan);
  }

  lemma OpenKeepsWhole(ordered: seq<Range>, s: Range, blocks: seq<Range>)
    requires Whole(ordered, blocks)
    ensures Whole(ordered + [s], blocks + [s])
  {
    assert s in blocks + [s];
    forall t | t in ordered + [s] ensures Housed(t, blocks + [s]) {
      if t != s {
        assert Housed(t, blocks);
        var b :| b in blocks && t.Within(b);
        assert b in blocks + [s];
      }
    }
  }

  lemma OpenKeepsSpans(ordered: seq<Range>, s: Range, blocks: seq<Range>, openers: seq<Range>)
    requires OnSpans(ordered, blocks, openers)
    ensures OnSpans(ordered + [s], blocks + [s], openers + [s])
  {
    var now := blocks + [s];
    assert s in ordered + [s];
    forall i | 0 <= i < |now| ensures EndsOnSpan(now[i], ordered + [s]) {
      if i < |blocks| {
        assert EndsOnSpan(blocks[i], ordered);
        var t :| t in ordered && blocks[i].low <= t.low && t.high == blocks[i].high;
        assert t in ordered + [s];
      }
    }
  }

  lemma OpenKeepsLimits(ordered: seq<Range>, s: Range, blocks: seq<Range>,
                        ranges: Option<seq<Range>>, maxGap: int, maxSpan: int)
    requires Plannable(ordered + [s], ranges, maxGap, maxSpan)
    requires WithinLimits(ordered, blocks, ranges, maxGap, maxSpan)
    requires forall t :: t in ordered ==> Before(t, s)
    requires forall i :: 0 <= i < |blocks| ==> blocks[i].high < s.high
    ensures WithinLimits(ordered + [s], blocks + [s], ranges, maxGap, maxSpan)
  {
    var now := blocks + [s];
    assert s in ordered + [s];
    forall i | 0 <= i < |now| ensures now[i].Width() <= maxSpan && Allowed(now[i], ordered + [s], ranges, maxGap) {
      if i < |blocks| {
        assert Allowed(blocks[i], ordered, ranges, maxGap);
        if ranges.None? { KeepsBridges(ordered, s, blocks[i], maxGap); }
      } else if ranges.Some? {
        FitsInOne(s, ranges.value);
      }
    }
  }

  lemma OpenKeepsForced(ordered: seq<Range>, s: Range, blocks: seq<Range>, openers: seq<Range>,
                        ranges: Option<seq<Range>>, maxGap: int, maxSpan: int)
    requires blocks != [] && OnSpans(ordered, blocks, openers) && Reached(ordered, blocks)
    requires Forced(ordered, blocks, openers, ranges, maxGap, maxSpan)
    requires !Continues(blocks[|blocks| - 1], s, ranges, maxGap, maxSpan)
    requires forall t :: t in ordered ==> Before(t, s) && t != s
    ensures Forced(ordered + [s], blocks + [s], openers + [s], ranges, maxGap, maxSpan)
  {
    var now, openers' := blocks + [s], openers + [s];
    forall i | 0 < i < |now|
      ensures !Continues(now[i - 1], openers'[i], ranges, maxGap, maxSpan)
      ensures EndBy(ordered + [s], openers'[i], now[i - 1].high)
    {
      if i < |blocks| {
        assert EndBy(ordered, openers[i], blocks[i - 1].high);
        assert Before(openers[i], s) && openers[i] != s;
      }
    }
  }

  lemma KeepsBridges(ordered: seq<Range>, s: Range, block: Range, maxGap: int)
    requires Allowed(block, ordered, None, maxGap) && block.high < s.high
    ensures Allowed(block, ordered + [s], None, maxGap)
  {
    forall u | u in ordered + [s] && u.Within(block) && block.low < u.low ensures Bridged(block, u, ordered + [s], maxGap) {
      assert Bridged(block, u, ordered, maxGap);
      var t :| t in ordered && t != u && Before(t, u) && block.low <= t.low && u.low - t.high <= maxGap;
      assert t in ordered + [s];
    }
  }

  /** A span that cannot continue the open block starts and ends after it. */
  lemma OpensLater(s: Range, last: Range, ordered: seq<Range>, ranges: Option<seq<Range>>, maxGap: int, maxSpan: int)
    requires Plannable([s], ranges, maxGap, maxSpan) && last.Upright() && last.low <= s.low
    requires last.Width() <= maxSpan && Allowed(last, ordered, ranges, maxGap)
    requires !Continues(last, s, ranges, maxGap, maxSpan)
    ensures last.low < s.low && last.high < s.high
  {
    assert s in [s];
    if ranges.Some? && !Mergeable(last, s, ranges, maxGap) {
      var r :| r in ranges.value && last.Within(r);
      RangeOfIs(last.low, r, ranges.value);
      if r.Has(s.low) { RangeOfIs(s.low, r, ranges.value); }
    }
  }

  // ----- the result is a plan, and no plan has fewer blocks -----

  lemma LimitsByMembers(b: Range, ordered: seq<Range>, spans: seq<Range>, ranges: Option<seq<Range>>, maxGap: int)
    requires forall s :: s in ordered <==> s in spans
    ensures Allowed(b, ordered, ranges, maxGap) <==> Allowed(b, spans, ranges, maxGap)
  {
    if ranges.None? {
      forall s ensures Bridged(b, s, ordered, maxGap) <==> Bridged(b, s, spans, maxGap) { }
    }
  }

  lemma PermitsByMembers(b: Range, ordered: seq<Range>, spans: seq<Range>, ranges: Option<seq<Range>>, maxGap: int, maxSpan: int)
    requires forall s :: s in ordered <==> s in spans
    requires Permitted(b, spans, ranges, maxGap, maxSpan)
    ensures Permitted(b, ordered, ranges, maxGap, maxSpan)
  {
    if ranges.None? {
      forall s | s in ordered && s.Within(b) && Follows(b, s, ordered) ensures Near(s, ordered, maxGap) {
        assert Follows(b, s, spans);
        assert Near(s, spans, maxGap);
      }
    }
  }

  lemma PlannedShape(spans: seq<Range>, ranges: Option<seq<Range>>, maxGap: int, maxSpan: int)
    requires Plannable(spans, ranges, maxGap, maxSpan) && spans != []
    ensures var ordered := SortUnique(spans);
      && ordered != []
      && PlanShape(ordered, Blocks(ordered, ranges, maxGap, maxSpan), Openers(ordered, ranges, maxGap, maxSpan),
                   ranges, maxGap, maxSpan)
  {
    SortUniqueSorts(spans);
    assert spans[0] in SortUnique(spans);
    PlanHasShape(SortUnique(spans), ranges, maxGap, maxSpan);
  }

  /**
   Every successful plan reads each span whole within the limits; its blocks
   start and end with spans, and both ends strictly increase.
   */
  lemma PlanIsAdmissible(spans: seq<Range>, ranges: Option<seq<Range>>, maxGap: int, maxSpan: int)
    requires AllUpright(spans) && (ranges.None? ==> 0 <= maxGap)
    requires Planned(spans, ranges, maxGap, maxSpan).Ok?
    ensures var blocks := Planned(spans, ranges, maxGap, maxSpan).value;
      && Admissible(blocks, spans, ranges, maxGap, maxSpan)
      && Advancing(blocks)
      && (forall b :: b in blocks ==> BetweenSpans(b, spans))
  {
    var ordered := SortUnique(spans);
    var blocks := Blocks(ordered, ranges, maxGap, maxSpan);
    SortUniqueSorts(spans);
    if spans == [] {
      assert Sort(spans) == [] && ordered == [];
    } else {
      PlannedShape(spans, ranges, maxGap, maxSpan);
      ShapeIsAdmissible(spans, ordered, blocks, Openers(ordered, ranges, maxGap, maxSpan), ranges, maxGap, maxSpan);
    }
  }

  lemma ShapeIsAdmissible(spans: seq<Range>, ordered: seq<Range>, blocks: seq<Range>, openers: seq<Range>,
                          ranges: Option<seq<Range>>, maxGap: int, maxSpan: int)
    requires forall s :: s in ordered <==> s in spans
    requires PlanShape(ordered, blocks, openers, ranges, maxGap, maxSpan)
    ensures Admissible(blocks, spans, ranges, maxGap, maxSpan)
    ensures forall b :: b in blocks ==> BetweenSpans(b, spans)
  {
    forall s | s in spans ensures Housed(s, blocks) {
      assert s in ordered;
      assert Housed(s, blocks);
    }
    forall b | b in blocks ensures Respects(b, spans, ranges, maxGap, maxSpan) && BetweenSpans(b, spans) {
      var i :| 0 <= i < |blocks| && blocks[i] == b;
      ShapeOfBlock(spans, ordered, blocks, openers, i, ranges, maxGap, maxSpan);
    }
  }

  lemma ShapeOfBlock(spans: seq<Range>, ordered: seq<Range>, blocks: seq<Range>, openers: seq<Range>, i: nat,
                     ranges: Option<seq<Range>>, maxGap: int, maxSpan: int)
    requires i < |blocks| && forall s :: s in ordered <==> s in spans
    requires OnSpans(ordered, blocks, openers) && WithinLimits(ordered, blocks, ranges, maxGap, maxSpan)
    ensures Respects(blocks[i], spans, ranges, maxGap, maxSpan) && BetweenSpans(blocks[i], spans)
  {
    assert openers[i] in spans && openers[i].Within(blocks[i]);
    assert EndsOnSpan(blocks[i], ordered);
    var t :| t in ordered && blocks[i].low <= t.low && t.high == blocks[i].high;
    assert t in spans;
    LimitsByMembers(blocks[i], ordered, spans, ranges, maxGap);
  }

  /** The block starts with a span and ends with one. */
  ghost predicate BetweenSpans(b: Range, spans: seq<Range>) {
    StartsOnSpan(b, spans) && EndsOnSpan(b, spans)
  }

  /** Some span starts where the block starts and lies in it. */
  ghost predicate StartsOnSpan(b: Range, spans: seq<Range>) {
    exists t :: t in spans && t.low == b.low && t.Within(b)
  }

  /** A block within the limits that holds a span and where an earlier block starts would have let that block continue. */
  lemma HeldTogether(ordered: seq<Range>, last: Range, opener: Range, s: Range, b: Range,
                     ranges: Option<seq<Range>>, maxGap: int, maxSpan: int)
    requires ranges.Some? ==> Valid(ranges.value)
    requires Permitted(b, ordered, ranges, maxGap, maxSpan)
    requires opener in ordered && opener.Upright() && opener.low == last.low
    requires s in ordered && s.Upright() && s.Within(b) && b.low <= last.low < s.low && EndBy(ordered, s, last.high)
    ensures Continues(last, s, ranges, maxGap, maxSpan)
  {
    if ranges.None? {
      assert Follows(b, s, ordered);
      assert Near(s, ordered, maxGap);
    } else {
      var r :| r in ranges.value && b.Within(r);
      RangeOfIs(last.low, r, ranges.value);
      RangeOfIs(s.low, r, ranges.value);
    }
  }

  /** No block that respects the limits can hold two openers. */
  lemma OpenersAreApart(ordered: seq<Range>, blocks: seq<Range>, openers: seq<Range>, i: nat, j: nat, b: Range,
                        ranges: Option<seq<Range>>, maxGap: int, maxSpan: int)
    requires Plannable(ordered, ranges, maxGap, maxSpan)
    requires PlanShape(ordered, blocks, openers, ranges, maxGap, maxSpan)
    requires i < j < |openers| && openers[i].Within(b)
    requires Permitted(b, ordered, ranges, maxGap, maxSpan)
    ensures !openers[j].Within(b)
  {
    if openers[j].Within(b) {
      var last, s := blocks[i], openers[i + 1];
      assert EndBy(ordered, s, last.high) && s in ordered && openers[i] in ordered;
      EndsIncrease(ordered, blocks, openers, i + 1, j, ranges, maxGap, maxSpan);
      HeldTogether(ordered, last, openers[i], s, b, ranges, maxGap, maxSpan);
    }
  }

  lemma EndsIncrease(ordered: seq<Range>, blocks: seq<Range>, openers: seq<Range>, i: nat, j: nat,
                     ranges: Option<seq<Range>>, maxGap: int, maxSpan: int)
    requires Plannable(ordered, ranges, maxGap, maxSpan)
    requires PlanShape(ordered, blocks, openers, ranges, maxGap, maxSpan)
    requires 0 < i <= j < |openers|
    ensures openers[i].low <= openers[j].low && openers[i].high <= openers[j].high
  {
    if i < j {
      var last, s := blocks[j - 1], openers[j];
      assert openers[j - 1] in ordered && s in ordered;
      assert WithinLimits(ordered, blocks, ranges, maxGap, maxSpan);
      assert Plannable([s], ranges, maxGap, maxSpan);
      assert blocks[j - 1].low < blocks[j].low;
      OpensLater(s, last, ordered, ranges, maxGap, maxSpan);
      assert openers[i].high <= blocks[i].high && (i < j - 1 ==> blocks[i].high < blocks[j - 1].high);
      assert i < j ==> blocks[i].low < blocks[j].low;
    }
  }

  /** If every span has a home in the plan and no block is home to two, the plan has as many blocks as spans. */
  lemma {:induction false} Pigeonhole(spans: seq<Range>, plan: seq<Range>)
    requires forall s :: s in spans ==> Housed(s, plan)
    requires forall i, j, b :: 0 <= i < j < |spans| && b in plan && spans[i].Within(b) ==> !spans[j].Within(b)
    ensures |spans| <= |plan|
  {
    if spans != [] {
      var n := |spans| - 1;
      assert Housed(spans[n], plan);
      var k :| 0 <= k < |plan| && spans[n].Within(plan[k]);
      var rest := plan[..k] + plan[k + 1..];
      forall s | s in spans[..n] ensures Housed(s, rest) {
        var i :| 0 <= i < n && spans[i] == s;
        assert Housed(spans[i], plan);
        var m :| 0 <= m < |plan| && s.Within(plan[m]);
        assert plan[k] in plan && !spans[i].Within(plan[k]);
        assert plan[m] == if m < k then rest[m] else rest[m - 1];
      }
      forall b | b in rest ensures b in plan { }
      Pigeonhole(spans[..n], rest);
    }
  }

  /**
   If any list of blocks at all reads every span whole within the limits, then planning
   succeeds, with no more blocks than that list has; and the plan is such a list itself.
   */
  lemma FewestReads(spans: seq<Range>, ranges: Option<seq<Range>>, maxGap: int, maxSpan: int, plan: seq<Range>)
    requires AllUpright(spans)
    requires if ranges.Some? then Valid(ranges.value) else 0 <= maxGap
    requires Rival(plan, spans, ranges, maxGap, maxSpan)
    ensures Planned(spans, ranges, maxGap, maxSpan).Ok?
    ensures |Planned(spans, ranges, maxGap, maxSpan).value| <= |plan|
    ensures Rival(Planned(spans, ranges, maxGap, maxSpan).value, spans, ranges, maxGap, maxSpan)
  {
    PlanIsRival(spans, ranges, maxGap, maxSpan, plan);
    RivalIsAccepted(spans, ranges, maxGap, maxSpan, plan);
    var ordered := SortUnique(spans);
    SortUniqueSorts(spans);
    if spans == [] {
      assert Sort(spans) == [] && ordered == [];
    } else {
      var blocks := Blocks(ordered, ranges, maxGap, maxSpan);
      var openers := Openers(ordered, ranges, maxGap, maxSpan);
      PlannedShape(spans, ranges, maxGap, maxSpan);
      forall s | s in openers ensures Housed(s, plan) { assert s in ordered; assert s in spans; }
      forall i, j, b | 0 <= i < j < |openers| && b in plan && openers[i].Within(b) ensures !openers[j].Within(b) {
        assert Permitted(b, spans, ranges, maxGap, maxSpan);
        PermitsByMembers(b, ordered, spans, ranges, maxGap, maxSpan);
        OpenersAreApart(ordered, blocks, openers, i, j, b, ranges, maxGap, maxSpan);
      }
      Pigeonhole(openers, plan);
    }
  }

  lemma PlanIsRival(spans: seq<Range>, ranges: Option<seq<Range>>, maxGap: int, maxSpan: int, plan: seq<Range>)
    requires AllUpright(spans)
    requires if ranges.Some? then Valid(ranges.value) else 0 <= maxGap
    requires Rival(plan, spans, ranges, maxGap, maxSpan)
    ensures Planned(spans, ranges, maxGap, maxSpan).Ok?
    ensures Rival(Planned(spans, ranges, maxGap, maxSpan).value, spans, ranges, maxGap, maxSpan)
  {
    hide Rival, Admissible;
    RivalIsAccepted(spans, ranges, maxGap, maxSpan, plan);
    PlanIsAdmissible(spans, ranges, maxGap, maxSpan);
    AdmissibleIsRival(Planned(spans, ranges, maxGap, maxSpan).value, spans, ranges, maxGap, maxSpan);
  }

  /** Whatever can be read within the limits passes the planner's checks. */
  lemma RivalIsAccepted(spans: seq<Range>, ranges: Option<seq<Range>>, maxGap: int, maxSpan: int, plan: seq<Range>)
    requires AllUpright(spans)
    requires ranges.Some? ==> Valid(ranges.value)
    requires Rival(plan, spans, ranges, maxGap, maxSpan)
    ensures Accepted(spans, ranges, maxSpan)
  {
    forall s | s in spans ensures s.Width() <= maxSpan && (ranges.Some? ==> Fits(s, ranges.value)) {
      assert Housed(s, plan);
      var b :| b in plan && s.Within(b);
      assert Permitted(b, spans, ranges, maxGap, maxSpan);
      if ranges.Some? {
        var r :| r in ranges.value && b.Within(r);
        FitsInOne(s, ranges.value);
      }
    }
  }

  // ----- a plan depends on which spans there are, not on their order -----

  lemma {:induction false} SortedAlike(a: seq<Range>, b: seq<Range>)
    requires Sorted(a) && Distinct(a) && Sorted(b) && Distinct(b) && forall s :: s in a <==> s in b
    ensures a == b
  {
    if |b| > 0 { assert b[0] in b; }
    if a != [] {
      assert a[0] in b;
      FirstIsLeast(a, b[0]);
      FirstIsLeast(b, a[0]);
      forall s ensures s in a[1..] <==> s in b[1..] {
        OfTail(a, s);
        OfTail(b, s);
      }
      SortedAlike(a[1..], b[1..]);
    }
  }

  lemma FirstIsLeast(s: seq<Range>, r: Range)
    requires s != [] && Sorted(s) && r in s
    ensures Before(s[0], r)
  {
    var i :| 0 <= i < |s| && s[i] == r;
  }

  lemma OfTail(s: seq<Range>, r: Range)
    requires s != [] && Distinct(s)
    ensures r in s[1..] <==> r in s && r != s[0]
  {
    assert s == [s[0]] + s[1..];
    if r in s[1..] {
      var i :| 0 <= i < |s| - 1 && s[1..][i] == r;
      assert s[i + 1] == r;
    }
  }

  lemma PlanBySet(a: seq<Range>, b: seq<Range>, ranges: Option<seq<Range>>, maxGap: int, maxSpan: int)
    requires forall s :: s in a <==> s in b
    ensures Planned(a, ranges, maxGap, maxSpan) == Planned(b, ranges, maxGap, maxSpan)
  {
    hide Blocks, Fits, Valid, SortUnique;
    SortUniqueSorts(a);
    SortUniqueSorts(b);
    SortedAlike(SortUnique(a), SortUnique(b));
  }

  // ----- spans that share nothing -----

  /** No two of these spans share an address. */
  ghost predicate SharingNothing(spans: seq<Range>) {
    forall s, t, x :: s in spans && t in spans && s.Has(x) && t.Has(x) ==> s == t
  }

  /** Spans that share nothing are grouped into blocks that share nothing. */
  lemma {:induction false} ApartBlocks(ordered: seq<Range>, ranges: Option<seq<Range>>, maxGap: int, maxSpan: int)
    requires ordered != [] && Sorted(ordered) && Distinct(ordered) && AllUpright(ordered) && SharingNothing(ordered)
    ensures var blocks := Blocks(ordered, ranges, maxGap, maxSpan);
      && Ordered(blocks)
      && blocks[|blocks| - 1].high == ordered[|ordered| - 1].high && blocks[|blocks| - 1].low <= ordered[|ordered| - 1].low
  {
    var n := |ordered| - 1;
    var s := ordered[n];
    assert s.Upright();
    if n == 0 {
      assert ordered[..0] == [] && Blocks(ordered, ranges, maxGap, maxSpan) == [s];
    } else {
      hide Extend, Ordered;
      var before := ordered[..n];
      FollowsApart(ordered);
      ApartBlocks(before, ranges, maxGap, maxSpan);
      AddApart(Blocks(before, ranges, maxGap, maxSpan), s, ranges, maxGap, maxSpan);
    }
  }

  /** What the last of several sorted spans follows, if they share nothing. */
  lemma FollowsApart(ordered: seq<Range>)
    requires |ordered| > 1 && Sorted(ordered) && Distinct(ordered) && AllUpright(ordered) && SharingNothing(ordered)
    ensures var n := |ordered| - 1; var before := ordered[..n];
      && Sorted(before) && Distinct(before) && AllUpright(before) && SharingNothing(before)
      && before[n - 1].high < ordered[n].low
  {
    var n := |ordered| - 1;
    var t, s := ordered[n - 1], ordered[n];
    assert forall r :: r in ordered[..n] ==> r in ordered;
    assert Before(t, s) && t != s && t.Upright() && s.Upright();
    assert t.high < s.low by {
      if s.low <= t.high { assert s.Has(s.low) && t.Has(s.low); }
    }
  }

  lemma AddApart(blocks: seq<Range>, s: Range, ranges: Option<seq<Range>>, maxGap: int, maxSpan: int)
    requires blocks != [] && Ordered(blocks) && s.Upright() && blocks[|blocks| - 1].high < s.low
    ensures var now := Extend(blocks, s, ranges, maxGap, maxSpan);
      now != [] && Ordered(now) && now[|now| - 1].high == s.high && now[|now| - 1].low <= s.low
  {
    hide Continues;
    var now := Extend(blocks, s, ranges, maxGap, maxSpan);
    assert blocks[|blocks| - 1] in blocks;
    forall i | 0 <= i < |now| ensures now[i].Upright() {
      if i < |blocks| { assert blocks[i] in blocks; }
    }
  }

  // ----- translation -----

  lemma ShiftCons(r: Range, s: seq<Range>, k: int)
    ensures ShiftAll([r] + s, k) == [r.Shift(k)] + ShiftAll(s, k)
  {
  }

  lemma ShiftTail(s: seq<Range>, k: int)
    requires s != []
    ensures ShiftAll(s, k)[1..] == ShiftAll(s[1..], k) && ShiftAll(s, k)[0] == s[0].Shift(k)
  {
  }

  lemma {:induction false} InsertShifts(r: Range, s: seq<Range>, k: int)
    ensures Insert(r.Shift(k), ShiftAll(s, k)) == ShiftAll(Insert(r, s), k)
  {
    ShiftCons(r, s, k);
    if s == [] {
      assert [r] + s == [r];
    } else {
      ShiftTail(s, k);
      if !Before(r, s[0]) {
        InsertShifts(r, s[1..], k);
        ShiftCons(s[0], Insert(r, s[1..]), k);
      }
    }
  }

  lemma {:induction false} SortShifts(s: seq<Range>, k: int)
    ensures Sort(ShiftAll(s, k)) == ShiftAll(Sort(s), k)
  {
    if s != [] {
      ShiftTail(s, k);
      SortShifts(s[1..], k);
      InsertShifts(s[0], Sort(s[1..]), k);
    }
  }

  lemma {:induction false} DedupShifts(s: seq<Range>, k: int)
    ensures Dedup(ShiftAll(s, k)) == ShiftAll(Dedup(s), k)
  {
    if |s| >= 2 {
      DedupShifts(s[1..], k);
      assert ShiftAll(s, k)[1..] == ShiftAll(s[1..], k);
      assert s[0] == s[1] <==> s[0].Shift(k) == s[1].Shift(k);
    }
  }

  lemma {:induction false} RangeOfShifts(x: int, ranges: seq<Range>, k: int)
    ensures RangeOf(x + k, ShiftAll(ranges, k)) ==
            if RangeOf(x, ranges).Some? then Some(RangeOf(x, ranges).value.Shift(k)) else None
  {
    if ranges != [] {
      RangeOfShifts(x, ranges[1..], k);
      assert ShiftAll(ranges, k)[1..] == ShiftAll(ranges[1..], k);
    }
  }

  lemma ValidShifts(ranges: seq<Range>, k: int)
    requires Valid(ranges)
    ensures Valid(ShiftAll(ranges, k))
  {
    SortShifts(ranges, k);
    var sorted := Sort(ranges);
    forall r | r in ShiftAll(ranges, k) ensures r.Upright() { ShiftMembers(ranges, k, r); }
    forall i | 0 <= i < |sorted| - 1 ensures sorted[i].Shift(k).high < sorted[i + 1].Shift(k).low { }
  }

  lemma ValidUnshifts(ranges: seq<Range>, there: seq<Range>, back: seq<Range>, k: int)
    requires there == ShiftAll(ranges, k) && back == ShiftAll(there, -k) && back == ranges && Valid(there)
    ensures Valid(ranges)
  {
    hide Valid, ShiftAll;
    ValidShifts(there, -k);
  }

  function ShiftRanges(ranges: Option<seq<Range>>, k: int): Option<seq<Range>> {
    if ranges.Some? then Some(ShiftAll(ranges.value, k)) else None
  }

  lemma FitsShifts(s: Range, ranges: seq<Range>, k: int)
    ensures Fits(s.Shift(k), ShiftAll(ranges, k)) <==> Fits(s, ranges)
  {
    RangeOfShifts(s.low, ranges, k);
    RangeOfShifts(s.high, ranges, k);
  }

  lemma ContinuesShifts(b: Range, s: Range, ranges: Option<seq<Range>>, maxGap: int, maxSpan: int, k: int)
    ensures Continues(b.Shift(k), s.Shift(k), ShiftRanges(ranges, k), maxGap, maxSpan) <==>
            Continues(b, s, ranges, maxGap, maxSpan)
  {
    if ranges.Some? {
      RangeOfShifts(s.low, ranges.value, k);
      RangeOfShifts(b.low, ranges.value, k);
    }
  }

  lemma {:induction false} BlocksShift(ordered: seq<Range>, ranges: Option<seq<Range>>, maxGap: int, maxSpan: int, k: int)
    ensures Blocks(ShiftAll(ordered, k), ShiftRanges(ranges, k), maxGap, maxSpan) ==
            ShiftAll(Blocks(ordered, ranges, maxGap, maxSpan), k)
  {
    if ordered != [] {
      var n := |ordered| - 1;
      assert ShiftAll(ordered, k)[..n] == ShiftAll(ordered[..n], k);
      BlocksShift(ordered[..n], ranges, maxGap, maxSpan, k);
      StepShifts(Blocks(ordered[..n], ranges, maxGap, maxSpan), ordered[n], ranges, maxGap, maxSpan, k);
    }
  }

  lemma StepShifts(blocks: seq<Range>, s: Range, ranges: Option<seq<Range>>, maxGap: int, maxSpan: int, k: int)
    ensures Extend(ShiftAll(blocks, k), s.Shift(k), ShiftRanges(ranges, k), maxGap, maxSpan) ==
            ShiftAll(Extend(blocks, s, ranges, maxGap, maxSpan), k)
  {
    if blocks != [] {
      ContinuesShifts(blocks[|blocks| - 1], s, ranges, maxGap, maxSpan, k);
    }
  }

  lemma AcceptedShifts(spans: seq<Range>, ranges: Option<seq<Range>>, maxSpan: int, k: int)
    ensures Accepted(ShiftAll(spans, k), ShiftRanges(ranges, k), maxSpan) <==> Accepted(spans, ranges, maxSpan)
  {
    if ranges.Some? && Valid(ranges.value) { ValidShifts(ranges.value, k); }
    if ranges.Some? && Valid(ShiftAll(ranges.value, k)) {
      var there := ShiftAll(ranges.value, k);
      ShiftBack(ranges.value, k);
      ValidUnshifts(ranges.value, there, ShiftAll(there, -k), k);
    }
    forall s | s in spans
      ensures s.Shift(k) in ShiftAll(spans, k)
      ensures ranges.Some? ==> (Fits(s.Shift(k), ShiftAll(ranges.value, k)) <==> Fits(s, ranges.value))
    {
      ShiftMembers(spans, k, s.Shift(k));
      assert s.Shift(k).Shift(-k) == s;
      if ranges.Some? { FitsShifts(s, ranges.value, k); }
    }
    forall s' | s' in ShiftAll(spans, k) ensures s'.Shift(-k) in spans && s'.Shift(-k).Shift(k) == s' {
      ShiftMembers(spans, k, s');
    }
  }

  /** A layout placed `k` registers further on is read in the same blocks, `k` further on. */
  lemma PlanShifts(spans: seq<Range>, ranges: Option<seq<Range>>, maxGap: int, maxSpan: int, k: int)
    ensures Planned(ShiftAll(spans, k), ShiftRanges(ranges, k), maxGap, maxSpan) ==
            if Planned(spans, ranges, maxGap, maxSpan).Ok?
            then Ok(ShiftAll(Planned(spans, ranges, maxGap, maxSpan).value, k)) else Err(PlanError)
  {
    AcceptedShifts(spans, ranges, maxSpan, k);
    SortShifts(spans, k);
    DedupShifts(Sort(spans), k);
    BlocksShift(SortUnique(spans), ranges, maxGap, maxSpan, k);
  }
}
