/** GetInstances: the LEFT JOIN of game instances with their custom
    metadata rows, filtered, folded into one instance per id. JSON decoding
    of stored values is a parameter. */
module Instances {
  import opened Wrappers
  import opened Models
  import opened Seqs

  /** One row of instance_custom_metadata; the value column may be NULL. */
  datatype MetaRow = MetaRow(instanceID: string, key: string, value: Option<string>)

  /** The game_instances table and the instance_custom_metadata table.
      Custom metadata and source data have no column in game_instances. */
  datatype InstanceTables = InstanceTables(instances: seq<GameInstance>, meta: seq<MetaRow>)

  /** What a game_instances row reads back as: the columns only. */
  function Loaded(i: GameInstance): GameInstance {
    i.(customMetadata := map[], sourceData := map[], metadataStatus := i.metadataStatus.(sourcesTried := []))
  }

  /** The WHERE clause: installed only, same source, same platform, each
      test present only when the filter sets it. */
  predicate Matches(f: GameFilter, i: GameInstance) {
    (!f.installedOnly || i.installed) &&
    (f.source == "" || i.source == f.source) &&
    (f.platform == "" || i.platform == f.platform)
  }

  function InstanceKey(i: GameInstance): string { i.id }

  // ---------------------------------------------------------------------
  // The joined rows

  datatype JoinedRow = JoinedRow(inst: GameInstance, meta: Option<MetaRow>)

  function MetaOf(t: InstanceTables, id: string): seq<MetaRow> {
    Filter(t.meta, (m: MetaRow) => m.instanceID == id)
  }

  /** The LEFT JOIN rows of one instance: one per metadata row, or a single
      row with NULL metadata columns when it has none. */
  function RowsOf(i: GameInstance, ms: seq<MetaRow>): seq<JoinedRow> {
    if ms == [] then [JoinedRow(i, None)] else MetaRows(i, ms)
  }

  function MetaRows(i: GameInstance, ms: seq<MetaRow>): seq<JoinedRow> {
    if ms == [] then [] else [JoinedRow(i, Some(ms[0]))] + MetaRows(i, ms[1..])
  }

  /** The joined rows of the given instances, grouped per instance in table
      order. */
  function JoinOf(t: InstanceTables, insts: seq<GameInstance>): seq<JoinedRow> {
    if insts == [] then [] else RowsOf(insts[0], MetaOf(t, insts[0].id)) + JoinOf(t, insts[1..])
  }

  function Selected(t: InstanceTables, f: GameFilter): seq<GameInstance> {
    Filter(t.instances, (i: GameInstance) => Matches(f, i))
  }

  // ---------------------------------------------------------------------
  // Folding the rows

  /** A stored value: its JSON decoding, or the raw text when the text is
      not JSON. */
  function DecodeValue(parse: string -> Option<Value>, raw: string): (r: Value)
    ensures parse(raw).Some? ==> r == parse(raw).value
    ensures parse(raw).None? ==> r == VStr(raw)
  {
    match parse(raw)
    case Some(v) => v
    case None => VStr(raw)
  }

  /** One metadata row merged into a metadata map; a NULL value adds nothing. */
  function AddMeta(parse: string -> Option<Value>, m: Fields, row: MetaRow): Fields {
    if row.value.Some? then m[row.key := DecodeValue(parse, row.value.value)] else m
  }

  /** Metadata rows merged in order: the keys are those already present and
      those of the rows with a non-NULL value. */
  function ApplyMeta(parse: string -> Option<Value>, m: Fields, ms: seq<MetaRow>): (r: Fields)
    ensures forall k :: k in r <==> k in m || exists j :: 0 <= j < |ms| && ms[j].key == k && ms[j].value.Some?
    decreases |ms|
  {
    if ms == [] then m
    else
      var r := ApplyMeta(parse, AddMeta(parse, m, ms[0]), ms[1..]);
      assert forall j :: 0 <= j < |ms[1..]| ==> ms[1..][j] == ms[j + 1];
      r
  }

  function AddRowMeta(parse: string -> Option<Value>, i: GameInstance, meta: Option<MetaRow>): GameInstance {
    if meta.Some? then i.(customMetadata := AddMeta(parse, i.customMetadata, meta.value)) else i
  }

  /** One joined row: the first row of an id starts its instance from the
      columns with empty custom metadata; every row adds its metadata to
      that instance. */
  function Collect1(parse: string -> Option<Value>, acc: seq<GameInstance>, row: JoinedRow): seq<GameInstance> {
    match IndexOfKey(acc, InstanceKey, row.inst.id)
    case Some(k) => acc[k := AddRowMeta(parse, acc[k], row.meta)]
    case None => acc + [AddRowMeta(parse, Loaded(row.inst), row.meta)]
  }

  function Collect(parse: string -> Option<Value>, acc: seq<GameInstance>, rows: seq<JoinedRow>): seq<GameInstance>
    decreases |rows|
  {
    if rows == [] then acc else Collect(parse, Collect1(parse, acc, rows[0]), rows[1..])
  }

  predicate DistinctIDs(xs: seq<GameInstance>) {
    forall a, b :: 0 <= a < b < |xs| ==> xs[a].id != xs[b].id
  }

  /** GetInstances. The Go code returns the instances in map iteration
      order, modelled here as order of first appearance. */
  function GetInstances(parse: string -> Option<Value>, t: InstanceTables, f: GameFilter): (r: seq<GameInstance>)
    ensures DistinctIDs(r)
  {
    CollectDistinct(parse, [], JoinOf(t, Selected(t, f)));
    Collect(parse, [], JoinOf(t, Selected(t, f)))
  }

  /** Folding keeps ids distinct: a second row of an id updates the instance
      its first row started. */
  lemma {:induction false} CollectDistinct(parse: string -> Option<Value>, acc: seq<GameInstance>, rows: seq<JoinedRow>)
    requires DistinctIDs(acc)
    ensures DistinctIDs(Collect(parse, acc, rows))
    decreases |rows|
  {
    if rows != [] {
      var acc1 := Collect1(parse, acc, rows[0]);
      assert DistinctIDs(acc1) by {
        match IndexOfKey(acc, InstanceKey, rows[0].inst.id)
        case Some(k) =>
          assert forall a :: 0 <= a < |acc| ==> acc1[a].id == acc[a].id;
        case None =>
          assert forall a :: 0 <= a < |acc| ==> acc[a].id != rows[0].inst.id;
      }
      CollectDistinct(parse, acc1, rows[1..]);
    }
  }

  // ---------------------------------------------------------------------
  // Reference: one instance per selected row, with its own metadata

  /** What an instance reads back as: its columns, and the custom metadata
      of its own rows. */
  function Expected(parse: string -> Option<Value>, t: InstanceTables, i: GameInstance): GameInstance {
    Loaded(i).(customMetadata := ApplyMeta(parse, map[], MetaOf(t, i.id)))
  }

  function ExpectedAll(parse: string -> Option<Value>, t: InstanceTables, insts: seq<GameInstance>): (r: seq<GameInstance>)
    ensures |r| == |insts|
    ensures forall k :: 0 <= k < |insts| ==> r[k].id == insts[k].id
  {
    seq(|insts|, k requires 0 <= k < |insts| => Expected(parse, t, insts[k]))
  }

  lemma {:induction false} CollectAppend(parse: string -> Option<Value>, acc: seq<GameInstance>, a: seq<JoinedRow>, b: seq<JoinedRow>)
    ensures Collect(parse, acc, a + b) == Collect(parse, Collect(parse, acc, a), b)
    decreases |a|
  {
    if a == [] {
      assert a + b == b;
    } else {
      assert (a + b)[0] == a[0];
      assert (a + b)[1..] == a[1..] + b;
      CollectAppend(parse, Collect1(parse, acc, a[0]), a[1..], b);
    }
  }

  predicate Fresh(acc: seq<GameInstance>, id: string) {
    forall a :: 0 <= a < |acc| ==> acc[a].id != id
  }

  /** The later metadata rows of an instance all land on the instance its
      first row started, at the end of the accumulator. */
  lemma {:induction false} MetaRowsHit(parse: string -> Option<Value>, acc: seq<GameInstance>, x: GameInstance,
                                       i: GameInstance, ms: seq<MetaRow>)
    requires x.id == i.id && Fresh(acc, i.id)
    ensures Collect(parse, acc + [x], MetaRows(i, ms)) == acc + [x.(customMetadata := ApplyMeta(parse, x.customMetadata, ms))]
    decreases |ms|
  {
    if ms == [] {
      assert x.(customMetadata := x.customMetadata) == x;
    } else {
      var rows := MetaRows(i, ms);
      IndexOfKeyAppend(acc, x, InstanceKey, i.id);
      var x1 := AddRowMeta(parse, x, Some(ms[0]));
      assert Collect1(parse, acc + [x], rows[0]) == acc + [x1];
      MetaRowsHit(parse, acc, x1, i, ms[1..]);
    }
  }

  /** All rows of one fresh instance add exactly its expected value. */
  lemma GroupCollect(parse: string -> Option<Value>, t: InstanceTables, acc: seq<GameInstance>, i: GameInstance)
    requires Fresh(acc, i.id)
    ensures Collect(parse, acc, RowsOf(i, MetaOf(t, i.id))) == acc + [Expected(parse, t, i)]
  {
    var ms := MetaOf(t, i.id);
    assert IndexOfKey(acc, InstanceKey, i.id).None?;
    if ms == [] {
      assert Loaded(i).(customMetadata := map[]) == Loaded(i);
    } else {
      var x := AddRowMeta(parse, Loaded(i), Some(ms[0]));
      var rows := MetaRows(i, ms);
      assert Collect1(parse, acc, rows[0]) == acc + [x];
      MetaRowsHit(parse, acc, x, i, ms[1..]);
    }
  }

  lemma DistinctTail(xs: seq<GameInstance>)
    requires xs != [] && DistinctIDs(xs)
    ensures DistinctIDs(xs[1..])
  {
    forall a, b | 0 <= a < b < |xs[1..]| ensures xs[1..][a].id != xs[1..][b].id {
      assert xs[1..][a] == xs[a + 1] && xs[1..][b] == xs[b + 1];
    }
  }

  lemma FreshTail(acc: seq<GameInstance>, x: GameInstance, insts: seq<GameInstance>)
    requires insts != [] && x.id == insts[0].id && DistinctIDs(insts)
    requires forall k :: 0 <= k < |insts| ==> Fresh(acc, insts[k].id)
    ensures forall k :: 0 <= k < |insts[1..]| ==> Fresh(acc + [x], insts[1..][k].id)
  {
    forall k | 0 <= k < |insts[1..]| ensures Fresh(acc + [x], insts[1..][k].id) {
      assert insts[1..][k] == insts[k + 1];
      assert Fresh(acc, insts[k + 1].id);
      assert insts[0].id != insts[k + 1].id;
    }
  }

  lemma {:induction false} CollectJoin(parse: string -> Option<Value>, t: InstanceTables, acc: seq<GameInstance>, insts: seq<GameInstance>)
    requires DistinctIDs(insts)
    requires forall k :: 0 <= k < |insts| ==> Fresh(acc, insts[k].id)
    ensures Collect(parse, acc, JoinOf(t, insts)) == acc + ExpectedAll(parse, t, insts)
    decreases |insts|
  {
    if insts != [] {
      var acc1 := acc + [Expected(parse, t, insts[0])];
      FreshTail(acc, Expected(parse, t, insts[0]), insts);
      DistinctTail(insts);
      CollectJoin(parse, t, acc1, insts[1..]);
      JoinStep(parse, t, acc, insts);
    }
  }

  /** The step of CollectJoin: the first instance's rows, then the rest. */
  lemma JoinStep(parse: string -> Option<Value>, t: InstanceTables, acc: seq<GameInstance>, insts: seq<GameInstance>)
    requires insts != [] && Fresh(acc, insts[0].id)
    requires Collect(parse, acc + [Expected(parse, t, insts[0])], JoinOf(t, insts[1..]))
             == acc + [Expected(parse, t, insts[0])] + ExpectedAll(parse, t, insts[1..])
    ensures Collect(parse, acc, JoinOf(t, insts)) == acc + ExpectedAll(parse, t, insts)
  {
    var i := insts[0];
    GroupCollect(parse, t, acc, i);
    ExpectedAllCons(parse, t, insts);
    var e, es := Expected(parse, t, i), ExpectedAll(parse, t, insts[1..]);
    CollectThen(parse, acc, RowsOf(i, MetaOf(t, i.id)), JoinOf(t, insts[1..]), e, es);
  }

  /** Rows that add e, followed by rows that then add es, add e and es. */
  lemma CollectThen(parse: string -> Option<Value>, acc: seq<GameInstance>, head: seq<JoinedRow>, rest: seq<JoinedRow>,
                    e: GameInstance, es: seq<GameInstance>)
    requires Collect(parse, acc, head) == acc + [e]
    requires Collect(parse, acc + [e], rest) == acc + [e] + es
    ensures Collect(parse, acc, head + rest) == acc + ([e] + es)
  {
    CollectAppend(parse, acc, head, rest);
    AppendAssoc(acc, [e], es);
  }

  lemma ExpectedAllCons(parse: string -> Option<Value>, t: InstanceTables, insts: seq<GameInstance>)
    requires insts != []
    ensures ExpectedAll(parse, t, insts) == [Expected(parse, t, insts[0])] + ExpectedAll(parse, t, insts[1..])
  {
    var r, rest := ExpectedAll(parse, t, insts), ExpectedAll(parse, t, insts[1..]);
    forall k | 0 <= k < |r| ensures r[k] == ([Expected(parse, t, insts[0])] + rest)[k] {
      if k > 0 {
        assert insts[1..][k - 1] == insts[k];
      }
    }
  }

  /** With game_instances keyed by id, GetInstances returns exactly the
      instances that pass the filter, in table order, each read back with
      the custom metadata of its own rows decoded. */
  lemma GetInstancesIsReference(parse: string -> Option<Value>, t: InstanceTables, f: GameFilter)
    requires DistinctIDs(t.instances)
    ensures GetInstances(parse, t, f) == ExpectedAll(parse, t, Selected(t, f))
  {
    var sel := Selected(t, f);
    FilterDistinct(t.instances, f);
    CollectJoin(parse, t, [], sel);
  }

  lemma {:induction false} FilterDistinct(xs: seq<GameInstance>, f: GameFilter)
    requires DistinctIDs(xs)
    ensures DistinctIDs(Filter(xs, (i: GameInstance) => Matches(f, i)))
    decreases |xs|
  {
    if xs != [] {
      FilterDistinct(xs[1..], f);
      var rest := Filter(xs[1..], (i: GameInstance) => Matches(f, i));
      forall k | 0 <= k < |rest| ensures rest[k].id != xs[0].id {
        assert rest[k] in xs[1..];
      }
    }
  }

  /** Every returned instance passes the filter, and every instance of the
      table that passes it is returned. */
  lemma GetInstancesFilters(parse: string -> Option<Value>, t: InstanceTables, f: GameFilter)
    requires DistinctIDs(t.instances)
    ensures forall k :: 0 <= k < |GetInstances(parse, t, f)| ==> Matches(f, GetInstances(parse, t, f)[k])
    ensures forall i :: i in t.instances && Matches(f, i) ==> Expected(parse, t, i) in GetInstances(parse, t, f)
  {
    GetInstancesIsReference(parse, t, f);
    var sel := Selected(t, f);
    SelectedMembers(t, f);
    ExpectedAllFilters(parse, t, f, sel);
  }

  lemma SelectedMembers(t: InstanceTables, f: GameFilter)
    ensures forall k :: 0 <= k < |Selected(t, f)| ==> Matches(f, Selected(t, f)[k])
    ensures forall i :: i in t.instances && Matches(f, i) ==> i in Selected(t, f)
  {
    forall i | i in t.instances && Matches(f, i) ensures i in Selected(t, f) {
      var k :| 0 <= k < |t.instances| && t.instances[k] == i;
    }
  }

  lemma ExpectedAllFilters(parse: string -> Option<Value>, t: InstanceTables, f: GameFilter, sel: seq<GameInstance>)
    requires forall k :: 0 <= k < |sel| ==> Matches(f, sel[k])
    ensures forall k :: 0 <= k < |ExpectedAll(parse, t, sel)| ==> Matches(f, ExpectedAll(parse, t, sel)[k])
    ensures forall i :: i in sel ==> Expected(parse, t, i) in ExpectedAll(parse, t, sel)
  {
    var r := ExpectedAll(parse, t, sel);
    forall k | 0 <= k < |r| ensures Matches(f, r[k]) {
      assert r[k] == Expected(parse, t, sel[k]);
    }
    forall i | i in sel ensures Expected(parse, t, i) in r {
      var k :| 0 <= k < |sel| && sel[k] == i;
      assert r[k] == Expected(parse, t, i);
    }
  }
}
