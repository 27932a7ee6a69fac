/**
 Building a read plan for a component's fields and executing it
 (`ReadPlan` and `_Readable` in src/modbus_connection/model/_planning.py).

 The device is a fixed function from space and address to a word. Decoders stay
 abstract: a field's value is some function of its own registers and of its
 scale register's exponent.
 */
module Reading {
  import opened Wrappers
  import opened Ranges
  import opened Merging
  import opened Planning
  import Codec

  /** Where a field sits on the device, after everything that places its layout. */
  datatype ResolvedField = ResolvedField(
    name: string, address: int, count: nat, scaleAddress: Option<int>, space: Space)
  {
    function Span(): Range {
      Range(address, address + count - 1)
    }

    /** The spans the field needs: its own registers and its scale register. */
    function Spans(): seq<Range> {
      if scaleAddress.Some? then [Span(), Range(scaleAddress.value, scaleAddress.value)] else [Span()]
    }
  }

  /** The spans the fields need in one space (`_spans`). */
  function SpansIn(fields: seq<ResolvedField>, space: Space): seq<Range> {
    if fields == [] then []
    else
      var rest := SpansIn(fields[..|fields| - 1], space);
      var last := fields[|fields| - 1];
      if last.space == space then rest + last.Spans() else rest
  }

  function SpacesOf(fields: seq<ResolvedField>): set<Space> {
    set f | f in fields :: f.space
  }

  function PlannedIn(fields: seq<ResolvedField>, ranges: DeviceRanges, space: Space, maxGap: int, maxSpan: int)
    : Result<seq<Range>, PlanError>
  {
    Planned(SpansIn(fields, space), ranges.ForSpace(space), maxGap, maxSpan)
  }

  /** Blocks for every space the fields are read from (`ReadPlan.build`). */
  function Build(fields: seq<ResolvedField>, ranges: DeviceRanges, maxGap: int, maxSpan: int)
    : Result<map<Space, seq<Range>>, PlanError>
  {
    if forall space | space in SpacesOf(fields) :: PlannedIn(fields, ranges, space, maxGap, maxSpan).Ok? then
      Ok(map space | space in SpacesOf(fields) :: PlannedIn(fields, ranges, space, maxGap, maxSpan).value)
    else Err(PlanError)
  }

  /** Each field spans at least one register. */
  ghost predicate Sized(fields: seq<ResolvedField>) {
    forall f :: f in fields ==> f.count > 0
  }

  lemma {:induction false} SpansInMembers(fields: seq<ResolvedField>, space: Space, s: Range)
    ensures s in SpansIn(fields, space) <==> exists f :: f in fields && f.space == space && s in f.Spans()
  {
    if fields != [] {
      var n := |fields| - 1;
      SpansInMembers(fields[..n], space, s);
      assert fields == fields[..n] + [fields[n]];
      assert forall f :: f in fields <==> f in fields[..n] || f == fields[n];
    }
  }

  lemma SpansUpright(fields: seq<ResolvedField>, space: Space)
    requires Sized(fields)
    ensures AllUpright(SpansIn(fields, space))
  {
    forall s | s in SpansIn(fields, space) ensures s.Upright() {
      SpansInMembers(fields, space, s);
    }
  }

  /** The field reads the address: one of its own registers, or its scale register. */
  ghost predicate Needs(f: ResolvedField, x: int) {
    f.address <= x < f.address + f.count || f.scaleAddress == Some(x)
  }

  /** A field's spans hold the registers it needs and no others. */
  lemma SpansAreNeeded(f: ResolvedField, x: int)
    ensures (exists s :: s in f.Spans() && s.Has(x)) <==> Needs(f, x)
  {
    if f.address <= x < f.address + f.count { assert f.Span() in f.Spans() && f.Span().Has(x); }
    if f.scaleAddress == Some(x) { assert Range(x, x) in f.Spans() && Range(x, x).Has(x); }
  }

  /** The blocks hold every register the field needs. */
  ghost predicate Serves(blocks: map<Space, seq<Range>>, f: ResolvedField) {
    f.space in blocks && forall x :: Needs(f, x) ==> Covers(blocks[f.space], x)
  }

  /** A plan that was built serves every field it was built for. */
  lemma BuildServes(fields: seq<ResolvedField>, ranges: DeviceRanges, maxGap: nat, maxSpan: int)
    requires Sized(fields) && Build(fields, ranges, maxGap, maxSpan).Ok?
    ensures forall f :: f in fields ==> Serves(Build(fields, ranges, maxGap, maxSpan).value, f)
  {
    var blocks := Build(fields, ranges, maxGap, maxSpan).value;
    forall f | f in fields ensures Serves(blocks, f) {
      var space := f.space;
      SpansUpright(fields, space);
      PlanIsAdmissible(SpansIn(fields, space), ranges.ForSpace(space), maxGap, maxSpan);
      forall x | Needs(f, x) ensures Covers(blocks[space], x) {
        SpansAreNeeded(f, x);
        var s :| s in f.Spans() && s.Has(x);
        SpansInMembers(fields, space, s);
        assert Housed(s, blocks[space]);
      }
    }
  }

  // ----- executing a plan -----

  type Image = (Space, int) -> int

  /** The words at consecutive addresses. */
  function Words(image: Image, space: Space, address: int, count: nat): (words: seq<int>)
    ensures |words| == count && forall i :: 0 <= i < count ==> words[i] == image(space, address + i)
  {
    seq(count, i requires 0 <= i < count => image(space, address + i))
  }

  /** A register read as a signed power-of-ten exponent (`decode_int16`). */
  function Exponent(word: int): int {
    var raw := word % 0x1_0000;
    if raw >= 0x8000 then raw - 0x1_0000 else raw
  }

  /** That is the decode of one word as a signed integer, whatever the word. */
  lemma ExponentIsSigned(word: int)
    ensures Exponent(word) == Codec.DecodeInt([word], true, Codec.Big)
    ensures -0x8000 <= Exponent(word) < 0x8000 && (Exponent(word) - word) % 0x1_0000 == 0
  {
    assert [word][..0] == [];
    assert Codec.Packed([]) == 0;
    assert Codec.Values(0) == 1 && Codec.Values(1) == 0x1_0000;
  }

  /** How a field turns its registers, and its scale exponent, into a value. */
  type Decoder<!V> = (ResolvedField, seq<int>, Option<int>) -> V

  /** The value a field has when it alone is read: no plan, no blocks. */
  function FieldValue<V>(f: ResolvedField, image: Image, decode: Decoder<V>): V {
    decode(f, Words(image, f.space, f.address, f.count),
           if f.scaleAddress.Some? then Some(Exponent(image(f.space, f.scaleAddress.value))) else None)
  }

  /** The dictionary a component keeps decoded values in, shared by the items that point to it. */
  class Store<V> {
    var values: map<string, V>

    constructor ()
      ensures values == map[]
    {
      values := map[];
    }
  }

  datatype ReadItem<!V> = ReadItem(resolved: ResolvedField, store: Store<V>)

  /** The contents of a store once every item has been read on its own, in order. */
  function Scattered<V>(items: seq<ReadItem<V>>, store: Store<V>, was: map<string, V>,
                        image: Image, decode: Decoder<V>): map<string, V> {
    if items == [] then was
    else
      var rest := Scattered(items[..|items| - 1], store, was, image, decode);
      var last := items[|items| - 1];
      if last.store == store then rest[last.resolved.name := FieldValue(last.resolved, image, decode)] else rest
  }

  /** The item puts its value under this name in this store. */
  predicate PutsIn<V>(item: ReadItem<V>, store: Store<V>, name: string) {
    item.store == store && item.resolved.name == name
  }

  /** What a store holds under a name is the value of the last item that puts one there. */
  lemma {:induction false} LastItemWins<V>(items: seq<ReadItem<V>>, store: Store<V>, was: map<string, V>,
                                           image: Image, decode: Decoder<V>, i: nat)
    requires i < |items| && items[i].store == store
    requires forall j :: i < j < |items| ==> !PutsIn(items[j], store, items[i].resolved.name)
    ensures var now, name := Scattered(items, store, was, image, decode), items[i].resolved.name;
      name in now && now[name] == FieldValue(items[i].resolved, image, decode)
    decreases |items|
  {
    hide FieldValue;
    if i < |items| - 1 { LastItemWins(items[..|items| - 1], store, was, image, decode, i); }
  }

  /** Under a name no item puts a value there for, it holds what it held. */
  lemma {:induction false} OtherNamesStay<V>(items: seq<ReadItem<V>>, store: Store<V>, was: map<string, V>,
                                             image: Image, decode: Decoder<V>, name: string)
    requires forall i :: 0 <= i < |items| ==> !PutsIn(items[i], store, name)
    ensures var now := Scattered(items, store, was, image, decode);
      (name in now <==> name in was) && (name in was ==> now[name] == was[name])
    decreases |items|
  {
    hide FieldValue;
    if items != [] { OtherNamesStay(items[..|items| - 1], store, was, image, decode, name); }
  }

  function FieldsOf<V>(items: seq<ReadItem<V>>): (fields: seq<ResolvedField>)
    ensures |fields| == |items| && forall i :: 0 <= i < |items| ==> fields[i] == items[i].resolved
  {
    if items == [] then [] else [items[0].resolved] + FieldsOf(items[1..])
  }

  /** The words read so far are the image restricted to some blocks. */
  ghost predicate ReadBack(values: map<(Space, int), int>, blocks: map<Space, seq<Range>>, image: Image) {
    && (forall space, x :: (space, x) in values <==> space in blocks && Covers(blocks[space], x))
    && (forall key :: key in values ==> values[key] == image(key.0, key.1))
  }

  method ReadBlock(space: Space, block: Range, image: Image, values0: map<(Space, int), int>)
    returns (values: map<(Space, int), int>)
    requires forall key :: key in values0 ==> values0[key] == image(key.0, key.1)
    ensures forall key :: key in values <==> key in values0 || (key.0 == space && block.Has(key.1))
    ensures forall key :: key in values ==> values[key] == image(key.0, key.1)
  {
    var count := if block.Width() < 0 then 0 else block.Width();
    var got := Words(image, space, block.low, count);
    values := values0;
    for offset := 0 to count
      invariant forall key :: key in values <==> key in values0 || (key.0 == space && block.low <= key.1 < block.low + offset)
      invariant forall key :: key in values ==> values[key] == image(key.0, key.1)
    {
      values := values[(space, block.low + offset) := got[offset]];
    }
  }

  method ReadBlocks(blocks: map<Space, seq<Range>>, image: Image) returns (values: map<(Space, int), int>)
    ensures ReadBack(values, blocks, image)
  {
    values := map[];
    var todo := blocks.Keys;
    while todo != {}
      invariant todo <= blocks.Keys
      invariant forall space, x :: (space, x) in values <==> space in blocks && space !in todo && Covers(blocks[space], x)
      invariant forall key :: key in values ==> values[key] == image(key.0, key.1)
      decreases todo
    {
      var space :| space in todo;
      todo := todo - {space};
      ghost var before := values;
      for i := 0 to |blocks[space]|
        invariant forall key :: key in values <==> key in before || (key.0 == space && Covers(blocks[space][..i], key.1))
        invariant forall key :: key in values ==> values[key] == image(key.0, key.1)
      {
        ghost var so := values;
        values := ReadBlock(space, blocks[space][i], image, values);
        assert blocks[space][..i + 1] == blocks[space][..i] + [blocks[space][i]];
        forall x ensures Covers(blocks[space][..i + 1], x) <==> Covers(blocks[space][..i], x) || blocks[space][i].Has(x) {
          CoversSplit(blocks[space][..i], [blocks[space][i]], x);
          SameRunOne(blocks[space][i], x, x);
        }
      }
      assert blocks[space][..|blocks[space]|] == blocks[space];
      forall x ensures (space, x) in before <==> false { }
    }
  }

  /**
   Read every block, then give each item the decode of its own words
   (`ReadPlan.execute`). No word is looked up that was not read, the stores end
   up as if each field had been read alone, and the raw result is the image
   restricted to the blocks.
   */
  method Execute<V>(items: seq<ReadItem<V>>, blocks: map<Space, seq<Range>>, image: Image, decode: Decoder<V>)
    returns (raw: map<(Space, int), int>)
    requires forall i :: 0 <= i < |items| ==> Serves(blocks, items[i].resolved)
    modifies set i | 0 <= i < |items| :: items[i].store
    ensures forall store: Store<V> {:trigger store.values} :: allocated(store) ==>
      old(allocated(store)) ==> store.values == Scattered(items, store, old(store.values), image, decode)
    ensures items == [] ==> raw == map[]
    ensures items != [] ==> ReadBack(raw, blocks, image)
  {
    if items == [] {
      return map[];
    }
    raw := ReadBlocks(blocks, image);
    for n := 0 to |items|
      invariant forall store: Store<V> {:trigger store.values} :: old(allocated(store)) ==>
        store.values == Scattered(items[..n], store, old(store.values), image, decode)
    {
      var resolved := items[n].resolved;
      assert Serves(blocks, resolved);
      var words: seq<int> := [];
      for offset := 0 to resolved.count
        invariant words == Words(image, resolved.space, resolved.address, offset)
      {
        assert Needs(resolved, resolved.address + offset);
        words := words + [raw[(resolved.space, resolved.address + offset)]];
      }
      var exponent: Option<int> := None;
      if resolved.scaleAddress.Some? {
        var scale := resolved.scaleAddress.value;
        assert Needs(resolved, scale);
        exponent := Some(Exponent(raw[(resolved.space, scale)]));
      }
      items[n].store.values := items[n].store.values[resolved.name := decode(resolved, words, exponent)];
      assert items[..n + 1][..n] == items[..n];
    }
    assert items[..|items|] == items;
  }
}
