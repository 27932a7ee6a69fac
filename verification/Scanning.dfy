/**
 Walking a device's chain of SunSpec models (src/modbus_connection/model/sunspec/scan.py).

 The chain starts with a marker; each model is a header of two words, its ID and the
 length of its data, and the next header follows its data; an end ID closes the chain.
 */
module Scanning {
  import opened Wrappers
  import Codec

  const MARKER := 0x5375_6E53
  const END_ID := 0xFFFF
  const MAX_MODELS := 100

  datatype Model = Model(id: int, address: int, length: int) {
    function Span(): int {
      length + 2
    }
  }

  datatype ScanError = NoMarker | Unterminated

  /** The device's holding registers. */
  type Image = int -> int

  /** The models found under one ID, in chain order. */
  datatype Found = Found(id: int, models: seq<Model>)

  // ----- grouping by ID -----

  /** Append a model under its ID; a new ID goes last. */
  function Filed(found: seq<Found>, m: Model): (now: seq<Found>)
    ensures now != []
  {
    if found == [] then [Found(m.id, [m])]
    else if found[0].id == m.id then [Found(m.id, found[0].models + [m])] + found[1..]
    else [found[0]] + Filed(found[1..], m)
  }

  function FiledAll(models: seq<Model>): seq<Found> {
    if models == [] then [] else Filed(FiledAll(models[..|models| - 1]), models[|models| - 1])
  }

  /** What is filed under an ID. */
  function Under(found: seq<Found>, id: int): seq<Model> {
    if found == [] then [] else if found[0].id == id then found[0].models else Under(found[1..], id)
  }

  /** The models of one ID, in order. */
  function WithId(models: seq<Model>, id: int): seq<Model> {
    if models == [] then []
    else
      var rest, last := WithId(models[..|models| - 1], id), models[|models| - 1];
      if last.id == id then rest + [last] else rest
  }

  // ----- the walk -----

  /** The models from an address on, if the end is among the next `n` headers. */
  function Walk(image: Image, address: int, n: nat): Result<seq<Model>, ScanError>
    decreases n
  {
    if n == 0 then Err(Unterminated)
    else if image(address) == END_ID then Ok([])
    else
      var m := Model(image(address), address, image(address + 1));
      var rest := Walk(image, address + m.Span(), n - 1);
      if rest.Ok? then Ok([m] + rest.value) else rest
  }

  predicate Marked(image: Image, base: int) {
    Codec.Packed([image(base), image(base + 1)]) == MARKER
  }

  function Scanned(image: Image, base: int): Result<seq<Found>, ScanError> {
    if !Marked(image, base) then Err(NoMarker)
    else
      var chain := Walk(image, base + 2, MAX_MODELS);
      if chain.Ok? then Ok(FiledAll(chain.value)) else Err(chain.error)
  }

  /** A walk that started with some models already found. */
  function After(models: seq<Model>, rest: Result<seq<Model>, ScanError>): Result<seq<Model>, ScanError> {
    if rest.Ok? then Ok(models + rest.value) else rest
  }

  lemma WalkStep(image: Image, address: int, n: nat, models: seq<Model>)
    requires n > 0 && image(address) != END_ID
    ensures var m := Model(image(address), address, image(address + 1));
      After(models, Walk(image, address, n)) == After(models + [m], Walk(image, address + m.Span(), n - 1))
  {
    var m := Model(image(address), address, image(address + 1));
    var rest := Walk(image, address + m.Span(), n - 1);
    if rest.Ok? { assert models + ([m] + rest.value) == models + [m] + rest.value; }
  }

  lemma NoneBefore(rest: Result<seq<Model>, ScanError>)
    ensures After([], rest) == rest
  {
    if rest.Ok? { assert [] + rest.value == rest.value; }
  }

  lemma FiledMore(models: seq<Model>, m: Model)
    ensures FiledAll(models + [m]) == Filed(FiledAll(models), m)
  {
    assert (models + [m])[..|models|] == models;
  }

  method Scan(image: Image, base: int) returns (r: Result<seq<Found>, ScanError>)
    ensures r == Scanned(image, base)
  {
    hide Filed, FiledAll, After, Codec.Packed;
    var marker := Codec.CombineWords([image(base), image(base + 1)], Codec.Big);
    if marker != MARKER {
      return Err(NoMarker);
    }
    var found: seq<Found> := [];
    var address := base + 2;
    ghost var models: seq<Model> := [];
    NoneBefore(Walk(image, address, MAX_MODELS));
    NoneFiled();
    for i := 0 to MAX_MODELS
      invariant found == FiledAll(models)
      invariant Walk(image, base + 2, MAX_MODELS) == After(models, Walk(image, address, MAX_MODELS - i))
    {
      if image(address) == END_ID {
        EndsHere(models);
        return Ok(found);
      }
      var m := Model(image(address), address, image(address + 1));
      WalkStep(image, address, MAX_MODELS - i, models);
      FiledMore(models, m);
      found := Filed(found, m);
      models := models + [m];
      address := address + m.Span();
    }
    OutOfReach(models);
    r := Err(Unterminated);
  }

  lemma NoneFiled()
    ensures FiledAll([]) == []
  {
  }

  lemma EndsHere(models: seq<Model>)
    ensures After(models, Ok([])) == Ok(models)
  {
    assert models + [] == models;
  }

  lemma OutOfReach(models: seq<Model>)
    ensures After(models, Err(Unterminated)) == Err(Unterminated)
  {
  }

  // ----- what a chain is -----

  /** Where the next header is, after the first `n` models. */
  function HeaderAt(start: int, models: seq<Model>, n: nat): int
    requires n <= |models|
  {
    if n == 0 then start else HeaderAt(start, models, n - 1) + models[n - 1].Span()
  }

  /** The `i`-th model is what the image holds where the one before it ends. */
  ghost predicate HeldAt(image: Image, start: int, models: seq<Model>, i: nat)
    requires i < |models|
  {
    var address := HeaderAt(start, models, i);
    models[i] == Model(image(address), address, image(address + 1)) && models[i].id != END_ID
  }

  /** The image holds these models one span after the other from `start` on, then the end ID. */
  ghost predicate Holds(image: Image, start: int, models: seq<Model>) {
    && (forall i :: 0 <= i < |models| ==> HeldAt(image, start, models, i))
    && image(HeaderAt(start, models, |models|)) == END_ID
  }

  lemma {:induction false} HeaderTail(start: int, models: seq<Model>, n: nat)
    requires 0 < n <= |models|
    ensures HeaderAt(start, models, n) == HeaderAt(start + models[0].Span(), models[1..], n - 1)
  {
    if n > 1 { HeaderTail(start, models, n - 1); }
  }

  lemma HeldTail(image: Image, start: int, models: seq<Model>, i: nat)
    requires 0 < i < |models|
    ensures HeldAt(image, start, models, i) <==> HeldAt(image, start + models[0].Span(), models[1..], i - 1)
  {
    HeaderTail(start, models, i);
  }

  lemma HoldsTail(image: Image, start: int, models: seq<Model>)
    requires models != []
    ensures Holds(image, start, models) <==>
            HeldAt(image, start, models, 0) && Holds(image, start + models[0].Span(), models[1..])
  {
    hide HeldAt;
    var tail, next := models[1..], start + models[0].Span();
    HeaderTail(start, models, |models|);
    if Holds(image, start, models) {
      forall i | 0 <= i < |tail| ensures HeldAt(image, next, tail, i) { HeldTail(image, start, models, i + 1); }
    }
    if HeldAt(image, start, models, 0) && Holds(image, next, tail) {
      forall i | 0 <= i < |models| ensures HeldAt(image, start, models, i) {
        if i > 0 { HeldTail(image, start, models, i); }
      }
    }
  }

  /** The walk finds a chain exactly when the image holds it and its end is within reach. */
  lemma {:induction false} WalksExactly(image: Image, start: int, n: nat, models: seq<Model>)
    ensures Walk(image, start, n) == Ok(models) <==> Holds(image, start, models) && |models| < n
    decreases n
  {
    if models == [] {
      WalkEnds(image, start, n);
    } else {
      HoldsTail(image, start, models);
      if n > 0 && HeldAt(image, start, models, 0) {
        WalksExactly(image, start + models[0].Span(), n - 1, models[1..]);
        WalkGoesOn(image, start, n, models);
      } else {
        if Walk(image, start, n) == Ok(models) { WalkStarts(image, start, n, models); }
      }
    }
  }

  lemma WalkEnds(image: Image, start: int, n: nat)
    ensures Walk(image, start, n) == Ok([]) <==> image(start) == END_ID && n > 0
  {
  }

  lemma WalkStarts(image: Image, start: int, n: nat, models: seq<Model>)
    requires models != [] && Walk(image, start, n) == Ok(models)
    ensures n > 0 && HeldAt(image, start, models, 0)
  {
  }

  lemma WalkGoesOn(image: Image, start: int, n: nat, models: seq<Model>)
    requires models != [] && n > 0 && HeldAt(image, start, models, 0)
    ensures Walk(image, start, n) == Ok(models) <==> Walk(image, start + models[0].Span(), n - 1) == Ok(models[1..])
  {
    var rest := Walk(image, start + models[0].Span(), n - 1);
    if rest.Ok? { assert ([models[0]] + rest.value)[1..] == rest.value; }
    assert models == [models[0]] + models[1..];
  }

  // ----- reading the chain back -----

  /** Insert by address, after those that are no later. */
  function Inserted(chain: seq<Model>, m: Model): (now: seq<Model>)
    ensures multiset(now) == multiset(chain) + multiset{m}
  {
    if chain == [] then [m]
    else
      assert chain == chain[..|chain| - 1] + [chain[|chain| - 1]];
      if m.address < chain[|chain| - 1].address then Inserted(chain[..|chain| - 1], m) + [chain[|chain| - 1]]
      else chain + [m]
  }

  function Sorted(models: seq<Model>): (chain: seq<Model>)
    ensures multiset(chain) == multiset(models)
  {
    if models == [] then []
    else
      assert models == models[..|models| - 1] + [models[|models| - 1]];
      Inserted(Sorted(models[..|models| - 1]), models[|models| - 1])
  }

  function Everything(found: seq<Found>): seq<Model> {
    if found == [] then [] else found[0].models + Everything(found[1..])
  }

  /** `SunSpecModels.chain`. */
  function Chain(found: seq<Found>): seq<Model> {
    Sorted(Everything(found))
  }

  ghost predicate Ascending(models: seq<Model>) {
    forall i, j :: 0 <= i < j < |models| ==> models[i].address < models[j].address
  }

  ghost predicate NotDescending(models: seq<Model>) {
    forall i, j :: 0 <= i < j < |models| ==> models[i].address <= models[j].address
  }

  lemma {:induction false} InsertedInOrder(chain: seq<Model>, m: Model)
    requires NotDescending(chain)
    ensures NotDescending(Inserted(chain, m))
    decreases |chain|
  {
    if chain != [] && m.address < chain[|chain| - 1].address {
      var front, last := chain[..|chain| - 1], chain[|chain| - 1];
      InsertedInOrder(front, m);
      var now := Inserted(front, m);
      forall i | 0 <= i < |now| ensures now[i].address <= last.address {
        assert now[i] in multiset(now);
        assert now[i] == m || now[i] in multiset(front);
      }
    }
  }

  lemma {:induction false} SortedInOrder(models: seq<Model>)
    ensures NotDescending(Sorted(models))
    decreases |models|
  {
    if models != [] {
      SortedInOrder(models[..|models| - 1]);
      InsertedInOrder(Sorted(models[..|models| - 1]), models[|models| - 1]);
    }
  }

  /** The last of each is the one with the greatest address. */
  lemma SameLast(a: seq<Model>, b: seq<Model>)
    requires Ascending(a) && NotDescending(b) && multiset(a) == multiset(b) && |a| == |b| > 0
    ensures a[|a| - 1] == b[|b| - 1]
  {
    var n := |a| - 1;
    assert a[n] in multiset(b) && b[n] in multiset(a);
    var i :| 0 <= i <= n && b[i] == a[n];
    var j :| 0 <= j <= n && a[j] == b[n];
    NoneLater(b, i);
    AllBefore(a, j);
  }

  lemma NoneLater(b: seq<Model>, i: nat)
    requires NotDescending(b) && i < |b|
    ensures b[i].address <= b[|b| - 1].address
  {
  }

  lemma AllBefore(a: seq<Model>, j: nat)
    requires Ascending(a) && j < |a|
    ensures j == |a| - 1 || a[j].address < a[|a| - 1].address
  {
  }

  lemma FrontOf(a: seq<Model>)
    requires |a| > 0
    ensures multiset(a[..|a| - 1]) == multiset(a) - multiset{a[|a| - 1]}
  {
    assert a == a[..|a| - 1] + [a[|a| - 1]];
  }

  lemma FrontsSame(a: seq<Model>, b: seq<Model>)
    requires Ascending(a) && NotDescending(b) && multiset(a) == multiset(b) && |a| == |b| > 0
    ensures a[|a| - 1] == b[|b| - 1] && multiset(a[..|a| - 1]) == multiset(b[..|b| - 1])
    ensures Ascending(a[..|a| - 1]) && NotDescending(b[..|b| - 1])
  {
    SameLast(a, b);
    FrontOf(a);
    FrontOf(b);
  }

  /** Two orderings by address of the same models, with no address twice, are the same. */
  lemma {:induction false} SameInOrder(a: seq<Model>, b: seq<Model>)
    requires Ascending(a) && NotDescending(b) && multiset(a) == multiset(b)
    ensures a == b
    decreases |a|
  {
    hide Ascending, NotDescending;
    SameLength(a, b);
    if a != [] {
      FrontsSame(a, b);
      var front, front' := a[..|a| - 1], b[..|b| - 1];
      SameInOrder(front, front');
      Rejoin(a, b);
    }
  }

  lemma Rejoin(a: seq<Model>, b: seq<Model>)
    requires |a| == |b| > 0 && a[..|a| - 1] == b[..|b| - 1] && a[|a| - 1] == b[|b| - 1]
    ensures a == b
  {
    assert a == a[..|a| - 1] + [a[|a| - 1]] && b == b[..|b| - 1] + [b[|b| - 1]];
  }

  lemma SameLength(a: seq<Model>, b: seq<Model>)
    requires multiset(a) == multiset(b)
    ensures |a| == |b|
  {
    assert |multiset(a)| == |a| && |multiset(b)| == |b|;
  }

  lemma {:induction false} FiledKeeps(found: seq<Found>, m: Model)
    ensures multiset(Everything(Filed(found, m))) == multiset(Everything(found)) + multiset{m}
    decreases |found|
  {
    if found == [] {
      assert Everything([Found(m.id, [m])]) == [m] + Everything([]);
    } else if found[0].id == m.id {
      var now := Filed(found, m);
      assert now[1..] == found[1..];
    } else {
      FiledKeeps(found[1..], m);
      assert Filed(found, m)[1..] == Filed(found[1..], m);
    }
  }

  lemma {:induction false} AllFiled(models: seq<Model>)
    ensures multiset(Everything(FiledAll(models))) == multiset(models)
    decreases |models|
  {
    if models != [] {
      var n := |models| - 1;
      AllFiled(models[..n]);
      FiledKeeps(FiledAll(models[..n]), models[n]);
      assert models == models[..n] + [models[n]];
    }
  }

  lemma {:induction false} HeadersClimb(image: Image, start: int, models: seq<Model>, i: nat, j: nat)
    requires i < j <= |models| && forall k :: 0 <= k < |models| ==> models[k].length >= 0
    ensures HeaderAt(start, models, i) < HeaderAt(start, models, j)
    decreases j
  {
    if i < j - 1 { HeadersClimb(image, start, models, i, j - 1); }
  }

  /** Registers hold words. */
  ghost predicate AreWords(image: Image) {
    forall x :: 0 <= image(x) <= 0xFFFF
  }

  lemma HeldAscend(image: Image, start: int, models: seq<Model>)
    requires AreWords(image) && Holds(image, start, models)
    ensures Ascending(models)
  {
    forall k | 0 <= k < |models| ensures models[k].length >= 0 { assert HeldAt(image, start, models, k); }
    forall i, j | 0 <= i < j < |models| ensures models[i].address < models[j].address {
      assert HeldAt(image, start, models, i) && HeldAt(image, start, models, j);
      HeadersClimb(image, start, models, i, j);
    }
  }

  /** Reading the chain of what was filed gives the walk back in order, despite the grouping. */
  lemma ChainIsWalk(models: seq<Model>)
    requires Ascending(models)
    ensures Chain(FiledAll(models)) == models
  {
    AllFiled(models);
    SortedInOrder(Everything(FiledAll(models)));
    SameInOrder(models, Chain(FiledAll(models)));
  }

  /**
   A scan succeeds with a chain exactly when the image holds the marker, then those models one
   span after the other, at most 99 of them, then the end ID.
   */
  lemma ScansExactly(image: Image, base: int, models: seq<Model>)
    requires AreWords(image)
    ensures Scanned(image, base).Ok? && Chain(Scanned(image, base).value) == models <==>
            Marked(image, base) && Holds(image, base + 2, models) && |models| <= MAX_MODELS - 1
  {
    var walk := Walk(image, base + 2, MAX_MODELS);
    WalksExactly(image, base + 2, MAX_MODELS, models);
    if walk.Ok? {
      WalksExactly(image, base + 2, MAX_MODELS, walk.value);
      HeldAscend(image, base + 2, walk.value);
      ChainIsWalk(walk.value);
    }
  }

  /** A scan fails for want of a marker, or of an end in reach. */
  lemma ScanFails(image: Image, base: int)
    requires AreWords(image)
    ensures Scanned(image, base) == Err(NoMarker) <==> !Marked(image, base)
    ensures Scanned(image, base) == Err(Unterminated) <==>
            Marked(image, base) && forall models {:trigger Holds(image, base + 2, models)} :: Holds(image, base + 2, models) ==> |models| >= MAX_MODELS
  {
    forall models {:trigger Holds(image, base + 2, models)} ensures Walk(image, base + 2, MAX_MODELS) == Ok(models) <==> Holds(image, base + 2, models) && |models| < MAX_MODELS {
      WalksExactly(image, base + 2, MAX_MODELS, models);
    }
    var walk := Walk(image, base + 2, MAX_MODELS);
    WalkErrs(image, base + 2, MAX_MODELS);
    if walk.Ok? { assert Holds(image, base + 2, walk.value); }
  }

  lemma {:induction false} WalkErrs(image: Image, address: int, n: nat)
    ensures Walk(image, address, n).Ok? || Walk(image, address, n) == Err(Unterminated)
    decreases n
  {
    if n > 0 && image(address) != END_ID {
      WalkErrs(image, address + Model(image(address), address, image(address + 1)).Span(), n - 1);
    }
  }

  // ----- laying a chain out -----

  /** A header to lay out: an ID that is not the end's, and a length. */
  predicate Layable(entries: seq<(int, int)>) {
    forall i :: 0 <= i < |entries| ==> 0 <= entries[i].0 < END_ID && 0 <= entries[i].1 <= 0xFFFF
  }

  /** The word at an address of a chain laid out from `start` on, with zero data. */
  function WordOf(entries: seq<(int, int)>, start: int, x: int): int
    decreases |entries|
  {
    if entries == [] then if x == start then END_ID else 0
    else if x == start then entries[0].0
    else if x == start + 1 then entries[0].1
    else if x < start + 2 + entries[0].1 then 0
    else WordOf(entries[1..], start + 2 + entries[0].1, x)
  }

  function ModelsOf(entries: seq<(int, int)>, start: int): (models: seq<Model>)
    ensures |models| == |entries|
    decreases |entries|
  {
    if entries == [] then [] else [Model(entries[0].0, start, entries[0].1)] + ModelsOf(entries[1..], start + entries[0].1 + 2)
  }

  /** A device that holds the marker and then the chain. */
  function LaidOut(entries: seq<(int, int)>, base: int): Image {
    x => if x == base then MARKER / 0x1_0000 else if x == base + 1 then MARKER % 0x1_0000 else WordOf(entries, base + 2, x)
  }

  lemma {:induction false} LaidWords(entries: seq<(int, int)>, start: int, x: int)
    requires Layable(entries)
    ensures 0 <= WordOf(entries, start, x) <= 0xFFFF
    decreases |entries|
  {
    if entries != [] {
      assert Layable(entries[1..]);
      LaidWords(entries[1..], start + 2 + entries[0].1, x);
    }
  }

  lemma {:induction false} LaidHolds(entries: seq<(int, int)>, start: int, image: Image)
    requires Layable(entries) && forall x :: x >= start ==> image(x) == WordOf(entries, start, x)
    ensures Holds(image, start, ModelsOf(entries, start))
    decreases |entries|
  {
    if entries != [] {
      var models, next := ModelsOf(entries, start), start + entries[0].1 + 2;
      assert Layable(entries[1..]);
      LaidHolds(entries[1..], next, image);
      assert models[1..] == ModelsOf(entries[1..], next);
      HoldsTail(image, start, models);
    }
  }

  /** The round trip: any list of at most 99 models, laid out and scanned, comes back in order. */
  lemma LaidOutIsScanned(entries: seq<(int, int)>, base: int)
    requires Layable(entries) && |entries| <= MAX_MODELS - 1
    ensures Scanned(LaidOut(entries, base), base).Ok?
    ensures Chain(Scanned(LaidOut(entries, base), base).value) == ModelsOf(entries, base + 2)
  {
    var image := LaidOut(entries, base);
    forall x ensures 0 <= image(x) <= 0xFFFF { LaidWords(entries, base + 2, x); }
    LaidHolds(entries, base + 2, image);
    MarkerReads();
    ScansExactly(image, base, ModelsOf(entries, base + 2));
  }

  lemma MarkerReads()
    ensures Codec.Packed([MARKER / 0x1_0000, MARKER % 0x1_0000]) == MARKER
  {
    var words := [MARKER / 0x1_0000, MARKER % 0x1_0000];
    assert words[..1] == [MARKER / 0x1_0000];
    assert words[..1][..0] == [];
    assert Codec.Packed(words[..1]) == MARKER / 0x1_0000;
  }

  // ----- lookups -----

  /** What was filed under an ID is the chain's models of that ID, in order. */
  lemma {:induction false} FiledUnder(found: seq<Found>, m: Model, id: int)
    ensures Under(Filed(found, m), id) == if m.id == id then Under(found, id) + [m] else Under(found, id)
    decreases |found|
  {
    if found != [] {
      if found[0].id == m.id {
        assert Filed(found, m)[1..] == found[1..];
      } else {
        FiledUnder(found[1..], m, id);
        assert Filed(found, m)[1..] == Filed(found[1..], m);
      }
    }
  }

  lemma {:induction false} UnderIsWithId(models: seq<Model>, id: int)
    ensures Under(FiledAll(models), id) == WithId(models, id)
    decreases |models|
  {
    if models != [] {
      UnderIsWithId(models[..|models| - 1], id);
      FiledUnder(FiledAll(models[..|models| - 1]), models[|models| - 1], id);
    }
  }

  /** `SunSpecModels.first`: the first of the IDs that was found at all, at its first place in the chain. */
  function First(found: seq<Found>, ids: seq<int>): Option<Model>
    decreases |ids|
  {
    if ids == [] then None
    else if Under(found, ids[0]) != [] then Some(Under(found, ids[0])[0])
    else First(found, ids[1..])
  }

  lemma {:induction false} WithIdFirst(models: seq<Model>, id: int, k: nat)
    requires k < |models| && models[k].id == id && forall i :: 0 <= i < k ==> models[i].id != id
    ensures WithId(models, id) != [] && WithId(models, id)[0] == models[k]
    decreases |models|
  {
    var n := |models| - 1;
    if k < n {
      WithIdFirst(models[..n], id, k);
    } else {
      NoneWithId(models[..n], id);
    }
  }

  lemma {:induction false} NoneWithId(models: seq<Model>, id: int)
    requires forall i :: 0 <= i < |models| ==> models[i].id != id
    ensures WithId(models, id) == []
    decreases |models|
  {
    if models != [] { NoneWithId(models[..|models| - 1], id); }
  }

  predicate Occurs(models: seq<Model>, id: int) {
    exists k :: 0 <= k < |models| && models[k].id == id
  }

  /** The `k`-th model of the chain is the earliest with the `j`-th ID, and none has an ID listed before that. */
  predicate Preferred(models: seq<Model>, ids: seq<int>, j: nat, k: nat) {
    && j < |ids| && k < |models| && models[k].id == ids[j]
    && (forall i :: 0 <= i < k ==> models[i].id != ids[j])
    && (forall i :: 0 <= i < j ==> !Occurs(models, ids[i]))
  }

  /** `first` prefers an ID listed earlier, then a model earlier in the chain, and finds nothing exactly when no ID occurs. */
  lemma {:induction false} FirstIsEarliest(models: seq<Model>, ids: seq<int>)
    ensures forall j: nat, k: nat :: Preferred(models, ids, j, k) ==> First(FiledAll(models), ids) == Some(models[k])
    ensures First(FiledAll(models), ids).None? <==> forall i :: 0 <= i < |ids| ==> !Occurs(models, ids[i])
    decreases |ids|
  {
    hide FiledAll, Under, WithId;
    if ids != [] {
      FirstIsEarliest(models, ids[1..]);
      UnderIsWithId(models, ids[0]);
      if Occurs(models, ids[0]) {
        var k := Earliest(models, ids[0], |models|);
        WithIdFirst(models, ids[0], k);
        forall j: nat, k: nat | Preferred(models, ids, j, k) ensures First(FiledAll(models), ids) == Some(models[k]) {
          WithIdFirst(models, ids[0], k);
        }
      } else {
        NoneWithId(models, ids[0]);
        forall j: nat, k: nat | Preferred(models, ids, j, k) ensures First(FiledAll(models), ids) == Some(models[k]) {
          assert j > 0 && Preferred(models, ids[1..], j - 1, k);
        }
        assert forall i :: 0 < i < |ids| ==> ids[i] == ids[1..][i - 1];
      }
    }
  }

  /** Where an ID comes first. */
  lemma Earliest(models: seq<Model>, id: int, n: nat) returns (k: nat)
    requires n <= |models| && exists i :: 0 <= i < n && models[i].id == id
    ensures k < n && models[k].id == id && forall i :: 0 <= i < k ==> models[i].id != id
  {
    k := 0;
    while models[k].id != id
      invariant k < n && forall i :: 0 <= i < k ==> models[i].id != id
      decreases n - k
    {
      k := k + 1;
    }
  }
}
