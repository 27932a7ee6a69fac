/**
 Readable address-range maps and the operations on them
 (src/modbus_connection/model/_ranges.py).

 A range is an inclusive pair of addresses. Maps of ranges either were declared
 by an author, and then draw boundaries, or merely claim that something reads
 the addresses.
 */
module Ranges {
  import opened Wrappers

  datatype Range = Range(low: int, high: int) {
    predicate Has(x: int) {
      low <= x <= high
    }

    /** Not reversed. */
    predicate Upright() {
      low <= high
    }

    predicate Within(outer: Range) {
      outer.low <= low && high <= outer.high
    }

    function Width(): int {
      high - low + 1
    }

    function Shift(k: int): Range {
      Range(low + k, high + k)
    }
  }

  // ----- vocabulary: what a list of ranges says about addresses -----

  ghost predicate Covers(ranges: seq<Range>, x: int) {
    exists r :: r in ranges && r.Has(x)
  }

  /** Every address from `x` to `y` is covered. */
  ghost predicate Connected(ranges: seq<Range>, x: int, y: int) {
    forall z :: x <= z <= y || y <= z <= x ==> Covers(ranges, z)
  }

  /** One range holds both addresses, so one read may span them. */
  ghost predicate SameRun(ranges: seq<Range>, x: int, y: int) {
    exists r :: r in ranges && r.Has(x) && r.Has(y)
  }

  ghost predicate AllUpright(ranges: seq<Range>) {
    forall r :: r in ranges ==> r.Upright()
  }

  /** In ascending order, none reversed, no address twice. */
  ghost predicate Ordered(ranges: seq<Range>) {
    && AllUpright(ranges)
    && forall i, j :: 0 <= i < j < |ranges| ==> ranges[i].high < ranges[j].low
  }

  /** Ordered, with at least one address missing between neighbours. */
  ghost predicate Separated(ranges: seq<Range>) {
    && AllUpright(ranges)
    && forall i, j :: 0 <= i < j < |ranges| ==> ranges[i].high + 1 < ranges[j].low
  }

  // ----- sorting pairs the way the original's tuples sort -----

  predicate Before(a: Range, b: Range) {
    a.low < b.low || (a.low == b.low && a.high <= b.high)
  }

  predicate Sorted(s: seq<Range>) {
    forall i, j :: 0 <= i < j < |s| ==> Before(s[i], s[j])
  }

  function Insert(r: Range, s: seq<Range>): (t: seq<Range>)
    ensures multiset(t) == multiset(s) + multiset{r}
  {
    if s == [] then [r]
    else if Before(r, s[0]) then [r] + s
    else
      assert s == [s[0]] + s[1..];
      [s[0]] + Insert(r, s[1..])
  }

  /** The original's `sorted(...)` of a list. */
  function Sort(s: seq<Range>): (t: seq<Range>)
    ensures multiset(t) == multiset(s)
  {
    if s == [] then []
    else
      assert s == [s[0]] + s[1..];
      Insert(s[0], Sort(s[1..]))
  }

  lemma SameMembers(s: seq<Range>, t: seq<Range>)
    requires multiset(s) == multiset(t)
    ensures forall q :: q in s <==> q in t
  {
    forall q ensures q in s <==> q in t {
      assert q in s <==> q in multiset(s);
      assert q in t <==> q in multiset(t);
    }
  }

  lemma {:induction false} InsertKeepsSorted(r: Range, s: seq<Range>)
    requires Sorted(s)
    ensures Sorted(Insert(r, s))
  {
    if s != [] && !Before(r, s[0]) {
      var rest := Insert(r, s[1..]);
      InsertKeepsSorted(r, s[1..]);
      forall j | 0 <= j < |rest| ensures Before(s[0], rest[j]) {
        assert rest[j] in multiset(rest);
        assert rest[j] == r || rest[j] in s[1..];
      }
    }
  }

  lemma {:induction false} SortSorts(s: seq<Range>)
    ensures Sorted(Sort(s))
    ensures forall q :: q in Sort(s) <==> q in s
  {
    SameMembers(Sort(s), s);
    if s != [] {
      SortSorts(s[1..]);
      InsertKeepsSorted(s[0], Sort(s[1..]));
    }
  }

  /** Drop a range equal to the one before it. */
  function Dedup(s: seq<Range>): seq<Range> {
    if |s| < 2 then s
    else if s[0] == s[1] then Dedup(s[1..])
    else [s[0]] + Dedup(s[1..])
  }

  ghost predicate Distinct(s: seq<Range>) {
    forall i, j :: 0 <= i < j < |s| ==> s[i] != s[j]
  }

  lemma {:induction false} DedupDrops(s: seq<Range>)
    requires Sorted(s)
    ensures Sorted(Dedup(s)) && Distinct(Dedup(s))
    ensures forall q :: q in Dedup(s) <==> q in s
  {
    if |s| >= 2 {
      var rest := Dedup(s[1..]);
      DedupDrops(s[1..]);
      assert forall q :: q in s <==> q == s[0] || q in s[1..];
      if s[0] != s[1] {
        forall j | 0 <= j < |rest| ensures Before(s[0], rest[j]) && rest[j] != s[0] {
          assert rest[j] in s[1..];
          var k :| 0 <= k < |s[1..]| && s[1..][k] == rest[j];
          assert Before(s[0], s[1]) && (k == 0 || Before(s[1], s[1 + k]));
        }
      }
    }
  }

  /** The original's `sorted(set(...))`. */
  function SortUnique(s: seq<Range>): seq<Range> {
    Dedup(Sort(s))
  }

  lemma SortUniqueSorts(s: seq<Range>)
    ensures Sorted(SortUnique(s)) && Distinct(SortUnique(s))
    ensures forall q :: q in SortUnique(s) <==> q in s
  {
    SortSorts(s);
    DedupDrops(Sort(s));
  }

  lemma EmptyByMembers(s: seq<Range>, t: seq<Range>)
    requires forall q :: q in s <==> q in t
    ensures s == [] ==> t == []
  {
    if t != [] { assert t[0] in s; }
  }

  /** A strictly sorted list is fixed by its members, so input order and repeats never matter. */
  lemma {:induction false} SortedByMembers(s: seq<Range>, t: seq<Range>)
    requires Sorted(s) && Distinct(s) && Sorted(t) && Distinct(t)
    requires forall q :: q in s <==> q in t
    ensures s == t
  {
    EmptyByMembers(s, t);
    if s != [] {
      assert s[0] in t && t != [] && t[0] in s;
      assert s[0] == t[0];
      forall q ensures q in s[1..] <==> q in t[1..] {
        assert q in s[1..] <==> q in s && q != s[0];
        assert q in t[1..] <==> q in t && q != t[0];
      }
      SortedByMembers(s[1..], t[1..]);
    }
  }

  // ----- validating -----

  /** No range reversed, none overlapping its neighbour once sorted (`_validate_ranges`). */
  predicate Valid(ranges: seq<Range>) {
    var ordered := Sort(ranges);
    && (forall r :: r in ranges ==> r.Upright())
    && (forall i :: 0 <= i < |ordered| - 1 ==> ordered[i].high < ordered[i + 1].low)
  }

  lemma {:induction false} NeighboursOrder(s: seq<Range>)
    requires AllUpright(s)
    requires forall i :: 0 <= i < |s| - 1 ==> s[i].high < s[i + 1].low
    ensures Ordered(s)
  {
    if s != [] {
      NeighboursOrder(s[1..]);
      forall j | 0 < j < |s| ensures s[0].high < s[j].low {
        assert s[1] in s;
        if j > 1 { assert s[1] == s[1..][0] && s[j] == s[1..][j - 1]; }
      }
      assert forall i, j :: 0 < i < j < |s| ==> s[i] == s[1..][i - 1] && s[j] == s[1..][j - 1];
    }
  }

  /** No range is reversed, and no address is in two listed ranges, whatever their order. */
  ghost predicate Disjoint(ranges: seq<Range>) {
    && AllUpright(ranges)
    && forall i, j, x :: 0 <= i < j < |ranges| && ranges[i].Has(x) ==> !ranges[j].Has(x)
  }

  /** Checking neighbours in sorted order is enough to rule out every overlap. */
  lemma ValidMeansDisjoint(ranges: seq<Range>)
    ensures Valid(ranges) <==> Disjoint(ranges)
  {
    if Valid(ranges) {
      ValidIsDisjoint(ranges);
    }
    if Disjoint(ranges) {
      DisjointIsValid(ranges);
    }
  }

  lemma ValidIsDisjoint(ranges: seq<Range>)
    requires Valid(ranges)
    ensures Disjoint(ranges)
  {
    forall i, j, x | 0 <= i < j < |ranges| && ranges[i].Has(x) ensures !ranges[j].Has(x) {
      if ranges[j].Has(x) {
        ValidHolder(ranges, ranges[i], ranges[j], x);
        TwiceInMultiset(ranges, i, j);
        ValidIsOrdered(ranges);
        OrderedHasNoRepeats(Sort(ranges), ranges[i]);
      }
    }
  }

  /** In a valid map an address has one holder. */
  lemma ValidHolder(ranges: seq<Range>, r: Range, q: Range, x: int)
    requires Valid(ranges) && r in ranges && q in ranges && r.Has(x) && q.Has(x)
    ensures r == q
  {
    SortSorts(ranges);
    ValidIsOrdered(ranges);
    OrderedIsDisjoint(Sort(ranges), r, q, x);
  }

  lemma OrderedIsDisjoint(s: seq<Range>, r: Range, q: Range, x: int)
    requires Ordered(s) && r in s && q in s && r.Has(x) && q.Has(x)
    ensures r == q
  {
    var i :| 0 <= i < |s| && s[i] == r;
    var j :| 0 <= j < |s| && s[j] == q;
  }

  lemma DisjointIsValid(ranges: seq<Range>)
    requires Disjoint(ranges)
    ensures Valid(ranges)
  {
    var t := Sort(ranges);
    SortSorts(ranges);
    forall i | 0 <= i < |t| - 1 ensures t[i].high < t[i + 1].low {
      var r, q := t[i], t[i + 1];
      assert Before(r, q) && r in ranges && q in ranges;
      if r == q {
        TwiceInMultiset(t, i, i + 1);
      }
      TwoPlaces(ranges, r, q);
    }
  }

  /** Two members of a list that overlap stand in two places, so the list is not disjoint. */
  lemma TwoPlaces(ranges: seq<Range>, r: Range, q: Range)
    requires Disjoint(ranges) && r in ranges && q in ranges && Before(r, q)
    requires r == q ==> multiset(ranges)[r] >= 2
    ensures r.high < q.low
  {
    assert r.Upright() && q.Upright();
    var k :| 0 <= k < |ranges| && ranges[k] == r;
    if r == q {
      OtherPlace(ranges, r, k);
    }
    var m :| 0 <= m < |ranges| && m != k && ranges[m] == q;
    assert q.Has(q.low) && !r.Has(q.low);
  }

  lemma OtherPlace(s: seq<Range>, r: Range, k: nat)
    requires k < |s| && s[k] == r && multiset(s)[r] >= 2
    ensures exists m :: 0 <= m < |s| && m != k && s[m] == r
  {
    var before, after := s[..k], s[k + 1..];
    assert s == before + [r] + after;
    if r in before {
      var m :| 0 <= m < k && before[m] == r;
      assert s[m] == r;
    } else {
      assert multiset(before)[r] == 0 && r in multiset(after) && r in after;
      var m :| 0 <= m < |after| && after[m] == r;
      assert s[k + 1 + m] == r;
    }
  }

  lemma TwiceInMultiset(t: seq<Range>, i: nat, j: nat)
    requires i < j < |t| && t[i] == t[j]
    ensures multiset(t)[t[i]] >= 2
  {
    assert t == t[..j] + t[j..];
    assert t[i] == t[..j][i] && t[j] == t[j..][0];
    assert t[i] in multiset(t[..j]) && t[i] in multiset(t[j..]);
  }

  lemma ValidIsOrdered(ranges: seq<Range>)
    requires Valid(ranges)
    ensures Ordered(Sort(ranges))
  {
    SortSorts(ranges);
    NeighboursOrder(Sort(ranges));
  }

  lemma {:induction false} OrderedHasNoRepeats(s: seq<Range>, r: Range)
    requires Ordered(s)
    ensures multiset(s)[r] <= 1
  {
    if s != [] {
      OrderedHasNoRepeats(s[1..], r);
      assert s == [s[0]] + s[1..];
      assert s[0] !in s[1..];
    }
  }

  lemma OrderedIsSorted(s: seq<Range>)
    requires Ordered(s)
    ensures Valid(s)
  {
    DisjointIsValid(s);
  }

  /** The first range holding the address (`_range_of`). */
  function RangeOf(x: int, ranges: seq<Range>): Option<Range> {
    if ranges == [] then None
    else if ranges[0].Has(x) then Some(ranges[0])
    else RangeOf(x, ranges[1..])
  }

  lemma {:induction false} RangeOfFinds(x: int, ranges: seq<Range>)
    ensures RangeOf(x, ranges).None? <==> !Covers(ranges, x)
    ensures RangeOf(x, ranges).Some? ==> RangeOf(x, ranges).value in ranges && RangeOf(x, ranges).value.Has(x)
  {
    if ranges != [] {
      RangeOfFinds(x, ranges[1..]);
      assert forall q :: q in ranges <==> q == ranges[0] || q in ranges[1..];
    }
  }

  lemma RangeOfIs(x: int, r: Range, ranges: seq<Range>)
    requires Valid(ranges) && r in ranges && r.Has(x)
    ensures RangeOf(x, ranges) == Some(r)
  {
    RangeOfFinds(x, ranges);
    assert Covers(ranges, x);
    ValidHolder(ranges, r, RangeOf(x, ranges).value, x);
  }

  // ----- joining ranges that touch or overlap -----

  function Max(a: int, b: int): int {
    if a < b then b else a
  }

  /** One turn of the joining loop. */
  function Join(joined: seq<Range>, r: Range): seq<Range> {
    if joined != [] && r.low <= joined[|joined| - 1].high + 1 then
      var last := joined[|joined| - 1];
      joined[..|joined| - 1] + [Range(last.low, Max(last.high, r.high))]
    else joined + [r]
  }

  /** The list after `n` turns. */
  function JoinAll(sorted: seq<Range>, n: nat): seq<Range>
    requires n <= |sorted|
  {
    if n == 0 then [] else Join(JoinAll(sorted, n - 1), sorted[n - 1])
  }

  function Coalesced(ranges: seq<Range>): seq<Range> {
    var sorted := Sort(ranges);
    JoinAll(sorted, |sorted|)
  }

  method Coalesce(ranges: seq<Range>) returns (joined: seq<Range>)
    ensures joined == Coalesced(ranges)
  {
    var ordered := Sort(ranges);
    joined := [];
    for i := 0 to |ordered|
      invariant joined == JoinAll(ordered, i)
    {
      var Range(low, high) := ordered[i];
      ghost var was := joined;
      if joined != [] && low <= joined[|joined| - 1].high + 1 {
        var last := joined[|joined| - 1];
        joined := joined[..|joined| - 1] + [Range(last.low, Max(last.high, high))];
      } else {
        joined := joined + [Range(low, high)];
      }
      assert joined == Join(was, ordered[i]);
    }
  }

  lemma CoversSplit(a: seq<Range>, b: seq<Range>, x: int)
    ensures Covers(a + b, x) <==> Covers(a, x) || Covers(b, x)
  {
    if Covers(a, x) {
      var r :| r in a && r.Has(x);
      assert r in a + b;
    }
    if Covers(b, x) {
      var r :| r in b && r.Has(x);
      assert r in a + b;
    }
  }

  lemma JoinCovers(joined: seq<Range>, r: Range, x: int)
    requires Separated(joined) && r.Upright()
    requires joined != [] ==> joined[|joined| - 1].low <= r.low
    ensures Covers(Join(joined, r), x) <==> Covers(joined, x) || r.Has(x)
  {
    if joined != [] && r.low <= joined[|joined| - 1].high + 1 {
      var last := joined[|joined| - 1];
      var grown := Range(last.low, Max(last.high, r.high));
      assert joined == joined[..|joined| - 1] + [last];
      CoversSplit(joined[..|joined| - 1], [last], x);
      CoversSplit(joined[..|joined| - 1], [grown], x);
      assert Covers([last], x) <==> last.Has(x) by { assert last in [last]; }
      assert Covers([grown], x) <==> grown.Has(x) by { assert grown in [grown]; }
    } else {
      CoversSplit(joined, [r], x);
      assert Covers([r], x) <==> r.Has(x) by { assert r in [r]; }
    }
  }

  lemma JoinSeparates(joined: seq<Range>, r: Range)
    requires Separated(joined) && r.Upright()
    requires joined != [] ==> joined[|joined| - 1].low <= r.low
    ensures Separated(Join(joined, r))
    ensures Join(joined, r) != [] && Join(joined, r)[|Join(joined, r)| - 1].low <= r.low
  {
    if joined != [] { assert joined[|joined| - 1] in joined; }
  }

  /** One of the first `n` ranges holds the address. */
  ghost predicate CoversUpTo(s: seq<Range>, n: nat, x: int)
    requires n <= |s|
  {
    exists i :: 0 <= i < n && s[i].Has(x)
  }

  /** What joining has made of the first `n` ranges. */
  ghost predicate JoinedFrom(joined: seq<Range>, s: seq<Range>, n: nat)
    requires n <= |s|
  {
    && Separated(joined)
    && (forall x :: Covers(joined, x) <==> CoversUpTo(s, n, x))
    && (joined != [] ==> n > 0 && joined[|joined| - 1].low <= s[n - 1].low)
  }

  lemma JoinStep(joined: seq<Range>, s: seq<Range>, n: nat)
    requires Sorted(s) && AllUpright(s) && n < |s| && JoinedFrom(joined, s, n)
    ensures JoinedFrom(Join(joined, s[n]), s, n + 1)
  {
    var last := s[n];
    assert last in s;
    assert n > 0 ==> Before(s[n - 1], last);
    JoinSeparates(joined, last);
    forall x ensures Covers(Join(joined, last), x) <==> CoversUpTo(s, n + 1, x) {
      JoinCovers(joined, last, x);
      assert CoversUpTo(s, n + 1, x) <==> CoversUpTo(s, n, x) || last.Has(x);
    }
  }

  lemma {:induction false} JoinAllSeparates(s: seq<Range>, n: nat)
    requires Sorted(s) && AllUpright(s) && n <= |s|
    ensures JoinedFrom(JoinAll(s, n), s, n)
  {
    if n > 0 {
      hide Join, JoinedFrom;
      JoinAllSeparates(s, n - 1);
      JoinStep(JoinAll(s, n - 1), s, n - 1);
    }
  }

  /**
   What coalescing computes: the separated list with the same addresses, in
   which two addresses share a run exactly when nothing between them is missing.
   */
  lemma CoalesceMeaning(ranges: seq<Range>)
    requires AllUpright(ranges)
    ensures Separated(Coalesced(ranges))
    ensures forall x :: Covers(Coalesced(ranges), x) <==> Covers(ranges, x)
    ensures forall x, y :: SameRun(Coalesced(ranges), x, y) <==> Connected(ranges, x, y)
  {
    SortSorts(ranges);
    var sorted := Sort(ranges);
    JoinAllSeparates(sorted, |sorted|);
    var c := Coalesced(ranges);
    forall x ensures Covers(c, x) <==> Covers(ranges, x) {
      assert CoversUpTo(sorted, |sorted|, x) <==> Covers(sorted, x);
    }
    forall x, y ensures SameRun(c, x, y) <==> Connected(ranges, x, y) {
      SeparatedRuns(c, x, y);
      assert Connected(c, x, y) <==> Connected(ranges, x, y);
    }
  }

  lemma SeparatedRuns(c: seq<Range>, x: int, y: int)
    requires Separated(c)
    ensures SameRun(c, x, y) <==> Connected(c, x, y)
  {
    if SameRun(c, x, y) {
      var r :| r in c && r.Has(x) && r.Has(y);
      forall z | x <= z <= y || y <= z <= x ensures Covers(c, z) {
        assert r.Has(z);
      }
    }
    if Connected(c, x, y) {
      var lo, hi := if x <= y then x else y, if x <= y then y else x;
      assert Covers(c, lo);
      var i :| 0 <= i < |c| && c[i].Has(lo);
      SeparatedGap(c, i);
      assert c[i] in c && c[i].Has(hi);
    }
  }

  lemma SeparatedGap(c: seq<Range>, i: nat)
    requires Separated(c) && i < |c|
    ensures !Covers(c, c[i].high + 1)
  {
    forall r | r in c ensures !r.Has(c[i].high + 1) {
      var j :| 0 <= j < |c| && c[j] == r;
      assert c[i] in c;
      assert i < j ==> c[i].high + 1 < c[j].low;
      assert j < i ==> c[j].high + 1 < c[i].low;
    }
  }

  // ----- joining lists end to end -----

  function FlattenUpTo(parts: seq<seq<Range>>, n: nat): seq<Range>
    requires n <= |parts|
  {
    if n == 0 then [] else FlattenUpTo(parts, n - 1) + parts[n - 1]
  }

  function Flatten(parts: seq<seq<Range>>): seq<Range> {
    FlattenUpTo(parts, |parts|)
  }

  lemma SameRunSplit(a: seq<Range>, b: seq<Range>, x: int, y: int)
    ensures SameRun(a + b, x, y) <==> SameRun(a, x, y) || SameRun(b, x, y)
  {
    if SameRun(a, x, y) {
      var r :| r in a && r.Has(x) && r.Has(y);
      assert r in a + b;
    }
    if SameRun(b, x, y) {
      var r :| r in b && r.Has(x) && r.Has(y);
      assert r in a + b;
    }
  }

  lemma SameRunOne(r: Range, x: int, y: int)
    ensures SameRun([r], x, y) <==> r.Has(x) && r.Has(y)
  {
    assert r in [r];
  }

  /** One of the first `n` parts has the pair in one run. */
  ghost predicate RunInPart(parts: seq<seq<Range>>, n: nat, x: int, y: int)
    requires n <= |parts|
  {
    exists i :: 0 <= i < n && SameRun(parts[i], x, y)
  }

  lemma {:induction false} FlattenRuns(parts: seq<seq<Range>>, n: nat, x: int, y: int)
    requires n <= |parts|
    ensures SameRun(FlattenUpTo(parts, n), x, y) <==> RunInPart(parts, n, x, y)
  {
    if n > 0 {
      FlattenRuns(parts, n - 1, x, y);
      SameRunSplit(FlattenUpTo(parts, n - 1), parts[n - 1], x, y);
      assert RunInPart(parts, n, x, y) <==> RunInPart(parts, n - 1, x, y) || SameRun(parts[n - 1], x, y);
    }
  }

  lemma {:induction false} FlattenMembers(parts: seq<seq<Range>>, n: nat, r: Range)
    requires n <= |parts|
    ensures r in FlattenUpTo(parts, n) <==> exists i :: 0 <= i < n && r in parts[i]
  {
    if n > 0 {
      FlattenMembers(parts, n - 1, r);
    }
  }

  lemma DisjointJoin(a: seq<Range>, b: seq<Range>)
    requires Disjoint(a) && Disjoint(b) && forall x :: Covers(a, x) ==> !Covers(b, x)
    ensures Disjoint(a + b)
  {
    var t := a + b;
    forall i, j, x | 0 <= i < j < |t| && t[i].Has(x) ensures !t[j].Has(x) {
      if i < |a| <= j {
        assert a[i] in a && Covers(a, x) && !Covers(b, x);
        assert b[j - |a|] in b;
      }
    }
  }

  /** No address is covered by two parts. */
  ghost predicate Apart(parts: seq<seq<Range>>) {
    forall i, j, x :: 0 <= i < j < |parts| && Covers(parts[i], x) ==> !Covers(parts[j], x)
  }

  lemma {:induction false} FlattenDisjoint(parts: seq<seq<Range>>, n: nat)
    requires n <= |parts| && Apart(parts) && forall i :: 0 <= i < |parts| ==> Disjoint(parts[i])
    ensures Disjoint(FlattenUpTo(parts, n))
  {
    if n > 0 {
      var init := FlattenUpTo(parts, n - 1);
      FlattenDisjoint(parts, n - 1);
      forall x | Covers(init, x) ensures !Covers(parts[n - 1], x) {
        FlattenRuns(parts, n - 1, x, x);
        CoversMeansRun(init, x);
        var i :| 0 <= i < n - 1 && SameRun(parts[i], x, x);
        CoversMeansRun(parts[i], x);
      }
      DisjointJoin(init, parts[n - 1]);
    }
  }

  lemma CoversMeansRun(s: seq<Range>, x: int)
    ensures Covers(s, x) <==> SameRun(s, x, x)
  {
  }

  /** In order within each part and from part to part. */
  lemma {:induction false} FlattenOrdered(parts: seq<seq<Range>>, n: nat)
    requires n <= |parts| && forall i :: 0 <= i < |parts| ==> Ordered(parts[i])
    requires forall i, j, r, q :: 0 <= i < j < |parts| && r in parts[i] && q in parts[j] ==> r.high < q.low
    ensures Ordered(FlattenUpTo(parts, n))
  {
    if n > 0 {
      var init := FlattenUpTo(parts, n - 1);
      FlattenOrdered(parts, n - 1);
      forall r, q | r in init && q in parts[n - 1] ensures r.high < q.low {
        FlattenMembers(parts, n - 1, r);
      }
      OrderedJoin(init, parts[n - 1]);
    }
  }

  lemma OrderedJoin(a: seq<Range>, b: seq<Range>)
    requires Ordered(a) && Ordered(b)
    requires forall r, q :: r in a && q in b ==> r.high < q.low
    ensures Ordered(a + b)
  {
    var t := a + b;
    forall i, j | 0 <= i < j < |t| ensures t[i].high < t[j].low {
      if i < |a| <= j { assert a[i] in a && b[j - |a|] in b; }
    }
  }

  lemma {:induction false} FlattenGrows(parts: seq<seq<Range>>, m: nat, n: nat)
    requires m <= n <= |parts|
    ensures FlattenUpTo(parts, m) <= FlattenUpTo(parts, n)
    decreases n
  {
    if m < n {
      FlattenGrows(parts, m, n - 1);
    }
  }

  /** An address covered by two parts is held in two places of the joined list. */
  lemma FlattenOverlaps(parts: seq<seq<Range>>, i: nat, j: nat, x: int)
    requires i < j < |parts| && Covers(parts[i], x) && Covers(parts[j], x)
    ensures !Disjoint(Flatten(parts))
  {
    var init := FlattenUpTo(parts, j);
    assert RunInPart(parts, j, x, x) by { CoversMeansRun(parts[i], x); }
    FlattenRuns(parts, j, x, x);
    var r :| r in init && r.Has(x);
    var p :| 0 <= p < |init| && init[p] == r;
    var q :| 0 <= q < |parts[j]| && parts[j][q].Has(x);
    FlattenGrows(parts, j + 1, |parts|);
    TwoHolders(init, parts[j], Flatten(parts), p, q, x);
  }

  lemma TwoHolders(a: seq<Range>, b: seq<Range>, t: seq<Range>, p: nat, q: nat, x: int)
    requires a + b <= t && p < |a| && q < |b| && a[p].Has(x) && b[q].Has(x)
    ensures !Disjoint(t)
  {
    assert t[p] == (a + b)[p] == a[p];
    assert t[|a| + q] == (a + b)[|a| + q] == b[q];
  }

  // ----- cutting a run at the edges a declaration draws -----

  ghost predicate Ascending(s: seq<int>) {
    forall i, j :: 0 <= i < j < |s| ==> s[i] < s[j]
  }

  function InsertInt(x: int, s: seq<int>): seq<int> {
    if s == [] || x < s[0] then [x] + s
    else if x == s[0] then s
    else [s[0]] + InsertInt(x, s[1..])
  }

  /** The original's `sorted(set(...))` of integers. */
  function SortInts(s: seq<int>): seq<int> {
    if s == [] then [] else InsertInt(s[0], SortInts(s[1..]))
  }

  lemma {:induction false} InsertIntAscends(x: int, s: seq<int>)
    requires Ascending(s)
    ensures Ascending(InsertInt(x, s))
    ensures forall y :: y in InsertInt(x, s) <==> y == x || y in s
  {
    assert forall y :: y in s ==> s != [];
    if s != [] {
      assert forall y :: y in s <==> y == s[0] || y in s[1..];
      if x > s[0] {
        var rest := InsertInt(x, s[1..]);
        InsertIntAscends(x, s[1..]);
        assert forall y :: y in [s[0]] + rest <==> y == s[0] || y in rest;
        forall j | 0 <= j < |rest| ensures s[0] < rest[j] {
          assert rest[j] == x || rest[j] in s[1..];
        }
      } else {
        assert forall y :: y in [x] + s <==> y == x || y in s;
      }
    }
  }

  lemma {:induction false} SortIntsAscends(s: seq<int>)
    ensures Ascending(SortInts(s))
    ensures forall y :: y in SortInts(s) <==> y in s
  {
    if s != [] {
      SortIntsAscends(s[1..]);
      InsertIntAscends(s[0], SortInts(s[1..]));
      assert forall y :: y in s <==> y == s[0] || y in s[1..];
    }
  }

  /** The pieces finished so far, and where the next one starts. */
  datatype Cutting = Cutting(pieces: seq<Range>, start: int)

  function CutStep(c: Cutting, high: int, cut: int): Cutting {
    if c.start < cut <= high then Cutting(c.pieces + [Range(c.start, cut - 1)], cut) else c
  }

  function CutAll(run: Range, cuts: seq<int>, n: nat): Cutting
    requires n <= |cuts|
  {
    if n == 0 then Cutting([], run.low) else CutStep(CutAll(run, cuts, n - 1), run.high, cuts[n - 1])
  }

  function CutRun(run: Range, cuts: seq<int>): seq<Range> {
    CutWith(run, cuts, |cuts|)
  }

  /** The pieces once the first `n` cuts are made. */
  function CutWith(run: Range, cuts: seq<int>, n: nat): seq<Range>
    requires n <= |cuts|
  {
    var c := CutAll(run, cuts, n);
    c.pieces + [Range(c.start, run.high)]
  }

  function CutEach(runs: seq<Range>, cuts: seq<int>): (t: seq<seq<Range>>)
    ensures |t| == |runs| && forall i :: 0 <= i < |t| ==> t[i] == CutRun(runs[i], cuts)
  {
    seq(|runs|, i requires 0 <= i < |runs| => CutRun(runs[i], cuts))
  }

  function CutRuns(runs: seq<Range>, cuts: seq<int>): seq<Range> {
    Flatten(CutEach(runs, cuts))
  }

  /** Some cut separates the two addresses. */
  ghost predicate Severed(cuts: seq<int>, x: int, y: int) {
    SeveredBy(cuts, |cuts|, x, y)
  }

  /** One of the first `n` cuts separates them. */
  ghost predicate SeveredBy(cuts: seq<int>, n: nat, x: int, y: int)
    requires n <= |cuts|
  {
    exists i :: 0 <= i < n && (x < cuts[i] <= y || y < cuts[i] <= x)
  }

  /** What a finished piece and the open one say about each pair of addresses. */
  ghost predicate CutsAt(pieces: seq<Range>, run: Range, cuts: seq<int>, n: nat)
    requires n <= |cuts|
  {
    forall x, y :: SameRun(pieces, x, y) <==> run.Has(x) && run.Has(y) && !SeveredBy(cuts, n, x, y)
  }

  lemma {:induction false} CutRunCuts(run: Range, cuts: seq<int>, n: nat)
    requires run.Upright() && Ascending(cuts) && n <= |cuts|
    ensures var c := CutAll(run, cuts, n);
      && run.low <= c.start <= run.high
      && (c.start == run.low || (n > 0 && c.start <= cuts[n - 1]))
    ensures Ordered(CutWith(run, cuts, n))
    ensures CutsAt(CutWith(run, cuts, n), run, cuts, n)
  {
    if n == 0 {
      assert CutWith(run, cuts, n) == [run];
      forall x, y { SameRunOne(run, x, y); }
    } else {
      var cut, c := cuts[n - 1], CutAll(run, cuts, n - 1);
      CutRunCuts(run, cuts, n - 1);
      if c.start < cut <= run.high {
        CutOnce(c.pieces, c.start, run, cuts, n - 1);
        assert CutWith(run, cuts, n) == c.pieces + [Range(c.start, cut - 1), Range(cut, run.high)];
      } else {
        assert c.start >= cut ==> c.start == run.low;
        forall x, y ensures run.Has(x) && run.Has(y) ==> (SeveredBy(cuts, n, x, y) <==> SeveredBy(cuts, n - 1, x, y)) { }
      }
    }
  }

  lemma CutOnce(pieces: seq<Range>, start: int, run: Range, cuts: seq<int>, n: nat)
    requires n < |cuts| && start < cuts[n] <= run.high && run.low <= start
    requires Ordered(pieces + [Range(start, run.high)])
    requires CutsAt(pieces + [Range(start, run.high)], run, cuts, n)
    ensures Ordered(pieces + [Range(start, cuts[n] - 1), Range(cuts[n], run.high)])
    ensures CutsAt(pieces + [Range(start, cuts[n] - 1), Range(cuts[n], run.high)], run, cuts, n + 1)
  {
    var open, left, right := Range(start, run.high), Range(start, cuts[n] - 1), Range(cuts[n], run.high);
    var was, now := pieces + [open], pieces + [left, right];
    assert open in was && was[|pieces|] == open;
    forall p | p in pieces ensures p.Upright() && p.high < start {
      var i :| 0 <= i < |pieces| && pieces[i] == p;
      assert was[i] == p && p in was;
    }
    CutOrder(pieces, left, right, was);
    forall x, y ensures SameRun(now, x, y) <==> run.Has(x) && run.Has(y) && !SeveredBy(cuts, n + 1, x, y) {
      assert SeveredBy(cuts, n + 1, x, y) <==> SeveredBy(cuts, n, x, y) || x < cuts[n] <= y || y < cuts[n] <= x;
      SameRunSplit(pieces, [open], x, y);
      SameRunOne(open, x, y);
      SameRunSplit(pieces, [left, right], x, y);
      SameRunTwo(left, right, x, y);
    }
  }

  lemma SameRunTwo(r: Range, q: Range, x: int, y: int)
    ensures SameRun([r, q], x, y) <==> (r.Has(x) && r.Has(y)) || (q.Has(x) && q.Has(y))
  {
    assert r in [r, q] && q in [r, q];
  }

  lemma CutOrder(pieces: seq<Range>, left: Range, right: Range, was: seq<Range>)
    requires Ordered(was) && |was| == |pieces| + 1 && forall i :: 0 <= i < |pieces| ==> was[i] == pieces[i]
    requires left.Upright() && right.Upright() && left.high < right.low
    requires forall p :: p in pieces ==> p.Upright() && p.high < left.low
    ensures Ordered(pieces + [left, right])
  {
    var now := pieces + [left, right];
    forall i, j | 0 <= i < j < |now| ensures now[i].high < now[j].low {
      if i < |pieces| {
        assert now[i] == pieces[i] && pieces[i] in pieces;
        if j < |pieces| { assert was[i].high < was[j].low; }
      }
    }
  }
}
