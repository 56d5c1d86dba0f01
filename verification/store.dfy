/** The emulator tables of the SQLite store and the game-art table, as
    in-memory tables kept in insertion order. Each operation has the
    semantics of its SQL statement: keyed upserts, the LEFT JOIN of
    mappings to cores, filtered reads and bulk updates. */
module Store {
  import opened Wrappers
  import opened Models
  import opened Seqs

  /** The error database/sql returns when QueryRow finds nothing. */
  const NoRows: string := "sql: no rows in result set"
  const UniqueViolation: string :=
    "UNIQUE constraint failed: platform_emulators.platform, platform_emulators.emulator_id, platform_emulators.core_id"

  datatype ArtRow = ArtRow(url: string, source: string)

  datatype Store = Store(
    emulators: seq<Emulator>,
    cores: seq<EmulatorCore>,
    mappings: seq<PlatformEmulator>,
    settings: map<string, InstanceEmulatorSettings>,
    art: map<(string, string), ArtRow>)

  const EmptyStore: Store := Store([], [], [], map[], map[])

  // Table keys.
  function EmulatorKey(e: Emulator): string { e.id }
  function CoreKey(c: EmulatorCore): string { c.id }
  function CorePairKey(c: EmulatorCore): (string, string) { (c.emulatorID, c.coreID) }
  function MappingKey(m: PlatformEmulator): string { m.id }
  /** The columns of UNIQUE(platform, emulator_id, core_id). */
  function Triple(m: PlatformEmulator): (string, string, string) { (m.platform, m.emulatorID, m.coreID) }

  /** The table constraints, plus the fact that nothing ever writes a
      priority, so every mapping keeps the column default 0. */
  predicate Valid(st: Store) {
    (forall i, j :: 0 <= i < j < |st.emulators| ==> st.emulators[i].id != st.emulators[j].id) &&
    (forall i, j :: 0 <= i < j < |st.cores| ==> st.cores[i].id != st.cores[j].id) &&
    (forall i, j :: 0 <= i < j < |st.mappings| ==> st.mappings[i].id != st.mappings[j].id) &&
    (forall i, j :: 0 <= i < j < |st.mappings| ==> Triple(st.mappings[i]) != Triple(st.mappings[j])) &&
    (forall i :: 0 <= i < |st.mappings| ==> st.mappings[i].priority == 0)
  }

  /** Rewriting emulator rows in place, ids untouched, keeps the store valid. */
  lemma SameEmulatorIdsValid(st: Store, es: seq<Emulator>)
    requires Valid(st) && |es| == |st.emulators|
    requires forall k :: 0 <= k < |es| ==> es[k].id == st.emulators[k].id
    ensures Valid(st.(emulators := es))
  {
  }

  /** Appending an emulator with a new id keeps the store valid. */
  lemma AppendEmulatorValid(st: Store, e: Emulator)
    requires Valid(st) && forall k :: 0 <= k < |st.emulators| ==> st.emulators[k].id != e.id
    ensures Valid(st.(emulators := st.emulators + [e]))
  {
    var es := st.emulators + [e];
    assert forall k :: 0 <= k < |st.emulators| ==> es[k] == st.emulators[k];
  }

  /** Rewriting core rows in place, ids untouched, keeps the store valid. */
  lemma SameCoreIdsValid(st: Store, cs: seq<EmulatorCore>)
    requires Valid(st) && |cs| == |st.cores|
    requires forall k :: 0 <= k < |cs| ==> cs[k].id == st.cores[k].id
    ensures Valid(st.(cores := cs))
  {
  }

  /** Appending a core with a new id keeps the store valid. */
  lemma AppendCoreValid(st: Store, c: EmulatorCore)
    requires Valid(st) && forall k :: 0 <= k < |st.cores| ==> st.cores[k].id != c.id
    ensures Valid(st.(cores := st.cores + [c]))
  {
    var cs := st.cores + [c];
    assert forall k :: 0 <= k < |st.cores| ==> cs[k] == st.cores[k];
  }

  /** Rewriting mapping rows in place, with ids, triples and priorities
      untouched, keeps the store valid. */
  lemma SameMappingShapeValid(st: Store, ms: seq<PlatformEmulator>)
    requires Valid(st) && |ms| == |st.mappings|
    requires forall k :: 0 <= k < |ms| ==>
      ms[k].id == st.mappings[k].id && Triple(ms[k]) == Triple(st.mappings[k]) && ms[k].priority == st.mappings[k].priority
    ensures Valid(st.(mappings := ms))
  {
  }

  lemma EmptyStoreValid()
    ensures Valid(EmptyStore)
  {
  }

  // ---------------------------------------------------------------------
  // Emulators

  /** GetEmulator: the row with this id, or the no-rows error. */
  function GetEmulator(st: Store, id: string): (r: Result<Emulator>)
    ensures r.Ok? <==> exists k :: 0 <= k < |st.emulators| && st.emulators[k].id == id
    ensures r.Ok? ==> r.value.id == id && r.value in st.emulators
    ensures r.Err? ==> r.msg == NoRows
  {
    match IndexOfKey(st.emulators, EmulatorKey, id)
    case Some(i) => Ok(st.emulators[i])
    case None => Err(NoRows)
  }

  /** UpsertEmulator: insert, or on an id conflict overwrite every column
      except is_available. */
  function UpsertEmulator(st: Store, e: Emulator): (r: Store)
    ensures GetEmulator(r, e.id) ==
      Ok(e.(isAvailable := if GetEmulator(st, e.id).Ok? then GetEmulator(st, e.id).value.isAvailable else e.isAvailable))
    ensures forall id :: id != e.id ==> GetEmulator(r, id) == GetEmulator(st, id)
    ensures forall x :: x in r.emulators ==> x in st.emulators || SameColumns(x, e)
    ensures r.cores == st.cores && r.mappings == st.mappings && r.settings == st.settings && r.art == st.art
    ensures Valid(st) ==> Valid(r)
  {
    match IndexOfKey(st.emulators, EmulatorKey, e.id)
    case Some(i) =>
      OverwriteEmulator(st, i, e);
      st.(emulators := st.emulators[i := e.(isAvailable := st.emulators[i].isAvailable)])
    case None =>
      InsertEmulator(st, e);
      st.(emulators := st.emulators + [e])
  }

  /** An existing id: the row is overwritten, keeping its availability. */
  lemma OverwriteEmulator(st: Store, i: nat, e: Emulator)
    requires IndexOfKey(st.emulators, EmulatorKey, e.id) == Some(i)
    ensures var r := st.(emulators := st.emulators[i := e.(isAvailable := st.emulators[i].isAvailable)]);
      GetEmulator(r, e.id) == Ok(e.(isAvailable := st.emulators[i].isAvailable)) &&
      (forall id :: id != e.id ==> GetEmulator(r, id) == GetEmulator(st, id)) &&
      (forall x :: x in r.emulators ==> x in st.emulators || SameColumns(x, e)) &&
      (Valid(st) ==> Valid(r))
  {
    var updated := st.emulators[i := e.(isAvailable := st.emulators[i].isAvailable)];
    SameEmulatorKeys(st.emulators, updated);
    if Valid(st) { SameEmulatorIdsValid(st, updated); }
  }

  /** A new id: the row is appended. */
  lemma InsertEmulator(st: Store, e: Emulator)
    requires IndexOfKey(st.emulators, EmulatorKey, e.id).None?
    ensures var r := st.(emulators := st.emulators + [e]);
      GetEmulator(r, e.id) == Ok(e) &&
      (forall id :: id != e.id ==> GetEmulator(r, id) == GetEmulator(st, id)) &&
      (forall x :: x in r.emulators ==> x in st.emulators || x == e) &&
      (Valid(st) ==> Valid(r))
  {
    EmulatorAppend(st.emulators, e);
    if Valid(st) { AppendEmulatorValid(st, e); }
  }

  /** `x` carries every column of `e` except, possibly, is_available. */
  predicate SameColumns(x: Emulator, e: Emulator) {
    x == e.(isAvailable := x.isAvailable)
  }

  lemma SameEmulatorKeys(xs: seq<Emulator>, ys: seq<Emulator>)
    requires |xs| == |ys| && forall j :: 0 <= j < |xs| ==> xs[j].id == ys[j].id
    ensures forall id :: IndexOfKey(xs, EmulatorKey, id) == IndexOfKey(ys, EmulatorKey, id)
  {
    forall id ensures IndexOfKey(xs, EmulatorKey, id) == IndexOfKey(ys, EmulatorKey, id) {
      IndexOfKeySameKeys(xs, ys, EmulatorKey, EmulatorKey, id);
    }
  }

  /** The index a key lookup finds after appending one row. */
  function AppendLookup(before: Option<nat>, hit: bool, len: nat): Option<nat> {
    if before.Some? then before else if hit then Some(len) else None
  }

  lemma EmulatorAppend(xs: seq<Emulator>, e: Emulator)
    ensures forall id :: IndexOfKey(xs + [e], EmulatorKey, id) == AppendLookup(IndexOfKey(xs, EmulatorKey, id), e.id == id, |xs|)
  {
    forall id ensures IndexOfKey(xs + [e], EmulatorKey, id) == AppendLookup(IndexOfKey(xs, EmulatorKey, id), e.id == id, |xs|) {
      IndexOfKeyAppend(xs, e, EmulatorKey, id);
    }
  }

  /** UpdateEmulatorAvailability: sets is_available on the rows with this id. */
  function UpdateEmulatorAvailability(st: Store, id: string, available: bool): (r: Store)
    ensures |r.emulators| == |st.emulators|
    ensures forall k :: 0 <= k < |st.emulators| ==>
      r.emulators[k] == if st.emulators[k].id == id then st.emulators[k].(isAvailable := available) else st.emulators[k]
    ensures r.cores == st.cores && r.mappings == st.mappings && r.settings == st.settings && r.art == st.art
    ensures Valid(st) ==> Valid(r)
  {
    st.(emulators := Map(st.emulators, (e: Emulator) => if e.id == id then e.(isAvailable := available) else e))
  }

  // ---------------------------------------------------------------------
  // Cores

  /** GetCore: the first core row with this emulator id and core id. */
  function GetCore(st: Store, emulatorID: string, coreID: string): (r: Result<EmulatorCore>)
    ensures r.Ok? <==> exists k :: 0 <= k < |st.cores| && st.cores[k].emulatorID == emulatorID && st.cores[k].coreID == coreID
    ensures r.Ok? ==> r.value.emulatorID == emulatorID && r.value.coreID == coreID && r.value in st.cores
    ensures r.Err? ==> r.msg == NoRows
  {
    match IndexOfKey(st.cores, CorePairKey, (emulatorID, coreID))
    case Some(i) => Ok(st.cores[i])
    case None =>
      assert forall k :: 0 <= k < |st.cores| ==> CorePairKey(st.cores[k]) != (emulatorID, coreID);
      Err(NoRows)
  }

  /** The row with this primary key. */
  function CoreByID(st: Store, id: string): (r: Option<EmulatorCore>)
    ensures r.Some? ==> r.value.id == id && r.value in st.cores
    ensures r.None? ==> forall k :: 0 <= k < |st.cores| ==> st.cores[k].id != id
  {
    match IndexOfKey(st.cores, CoreKey, id)
    case Some(i) => Some(st.cores[i])
    case None => None
  }

  /** GetEmulatorCores: all cores for "", otherwise the cores of one emulator,
      in table order. */
  function GetEmulatorCores(st: Store, emulatorID: string): (r: seq<EmulatorCore>)
    ensures emulatorID == "" ==> r == st.cores
    ensures emulatorID != "" ==> forall c :: c in r <==> c in st.cores && c.emulatorID == emulatorID
  {
    if emulatorID == "" then st.cores
    else Filter(st.cores, (c: EmulatorCore) => c.emulatorID == emulatorID)
  }

  /** UpsertEmulatorCore: insert, or on an id conflict overwrite every column
      except is_available. */
  function UpsertEmulatorCore(st: Store, c: EmulatorCore): (r: Store)
    ensures CoreByID(r, c.id) ==
      Some(c.(isAvailable := if CoreByID(st, c.id).Some? then CoreByID(st, c.id).value.isAvailable else c.isAvailable))
    ensures forall id :: id != c.id ==> CoreByID(r, id) == CoreByID(st, id)
    ensures forall x :: x in r.cores ==> x in st.cores || SameCoreColumns(x, c)
    ensures r.emulators == st.emulators && r.mappings == st.mappings && r.settings == st.settings && r.art == st.art
    ensures Valid(st) ==> Valid(r)
  {
    match IndexOfKey(st.cores, CoreKey, c.id)
    case Some(i) => OverwriteCore(st, i, c)
    case None => InsertCore(st, c)
  }

  /** `x` carries every column of `c` except, possibly, is_available. */
  predicate SameCoreColumns(x: EmulatorCore, c: EmulatorCore) {
    x == c.(isAvailable := x.isAvailable)
  }

  /** An existing id: the row is overwritten, keeping its availability. */
  function OverwriteCore(st: Store, i: nat, c: EmulatorCore): (r: Store)
    requires IndexOfKey(st.cores, CoreKey, c.id) == Some(i)
    ensures CoreByID(r, c.id) == Some(c.(isAvailable := st.cores[i].isAvailable))
    ensures forall id :: id != c.id ==> CoreByID(r, id) == CoreByID(st, id)
    ensures forall x :: x in r.cores ==> x in st.cores || SameCoreColumns(x, c)
    ensures r.emulators == st.emulators && r.mappings == st.mappings && r.settings == st.settings && r.art == st.art
    ensures Valid(st) ==> Valid(r)
  {
    var updated := st.cores[i := c.(isAvailable := st.cores[i].isAvailable)];
    forall id ensures IndexOfKey(st.cores, CoreKey, id) == IndexOfKey(updated, CoreKey, id) {
      IndexOfKeySameKeys(st.cores, updated, CoreKey, CoreKey, id);
    }
    assert Valid(st) ==> Valid(st.(cores := updated)) by {
      if Valid(st) { SameCoreIdsValid(st, updated); }
    }
    st.(cores := updated)
  }

  /** A new id: the row is appended. */
  function InsertCore(st: Store, c: EmulatorCore): (r: Store)
    requires IndexOfKey(st.cores, CoreKey, c.id).None?
    ensures CoreByID(r, c.id) == Some(c)
    ensures forall id :: id != c.id ==> CoreByID(r, id) == CoreByID(st, id)
    ensures forall x :: x in r.cores ==> x in st.cores || x == c
    ensures r.emulators == st.emulators && r.mappings == st.mappings && r.settings == st.settings && r.art == st.art
    ensures Valid(st) ==> Valid(r)
  {
    forall id ensures IndexOfKey(st.cores + [c], CoreKey, id) ==
      if IndexOfKey(st.cores, CoreKey, id).Some? then IndexOfKey(st.cores, CoreKey, id)
      else if c.id == id then Some(|st.cores|) else None
    {
      IndexOfKeyAppend(st.cores, c, CoreKey, id);
    }
    assert Valid(st) ==> Valid(st.(cores := st.cores + [c])) by {
      if Valid(st) { AppendCoreValid(st, c); }
    }
    st.(cores := st.cores + [c])
  }

  /** UpdateEmulatorCoreAvailability: sets is_available on the rows with this id. */
  function UpdateCoreAvailability(st: Store, id: string, available: bool): (r: Store)
    ensures |r.cores| == |st.cores|
    ensures forall k :: 0 <= k < |st.cores| ==>
      r.cores[k] == if st.cores[k].id == id then st.cores[k].(isAvailable := available) else st.cores[k]
    ensures r.emulators == st.emulators && r.mappings == st.mappings && r.settings == st.settings && r.art == st.art
    ensures Valid(st) ==> Valid(r)
  {
    st.(cores := Map(st.cores, (c: EmulatorCore) => if c.id == id then c.(isAvailable := available) else c))
  }

  // ---------------------------------------------------------------------
  // Platform mappings

  /** UpsertPlatformEmulator: insert with priority 0, or on an id conflict
      overwrite platform, emulator, core and default flag (never priority).
      Either way the (platform, emulator, core) triple must stay unique; the
      core id is stored as a string, so "" takes part in the constraint. */
  function UpsertPlatformEmulator(st: Store, pe: PlatformEmulator): (r: Result<Store>)
    ensures r.Ok? <==>
      forall k :: 0 <= k < |st.mappings| && st.mappings[k].id != pe.id ==> Triple(st.mappings[k]) != Triple(pe)
    ensures r.Ok? ==> UpsertedRow(st, pe) in r.value.mappings
    ensures r.Ok? ==> (r.value.emulators == st.emulators && r.value.cores == st.cores &&
      r.value.settings == st.settings && r.value.art == st.art)
    ensures r.Ok? ==> forall k :: 0 <= k < |st.mappings| && st.mappings[k].id != pe.id ==> st.mappings[k] in r.value.mappings
    ensures r.Ok? ==> forall m :: m in r.value.mappings ==> m in st.mappings || m == UpsertedRow(st, pe)
    ensures r.Ok? && Valid(st) ==> forall m :: m in r.value.mappings && m.id == pe.id ==> m == UpsertedRow(st, pe)
    ensures r.Ok? && Valid(st) ==> Valid(r.value)
  {
    var clash := IndexWhere(st.mappings, (m: PlatformEmulator) => m.id != pe.id && Triple(m) == Triple(pe));
    if clash.Some? then
      Err(UniqueViolation)
    else
      match IndexOfKey(st.mappings, MappingKey, pe.id)
      case Some(i) =>
        var r := OverwriteMapping(st, i, pe);
        assert r.value.mappings[i] == UpsertedRow(st, pe);
        r
      case None =>
        var r := InsertMapping(st, pe);
        var n := |st.mappings|;
        assert r.value.mappings[n] == UpsertedRow(st, pe);
        assert forall k :: 0 <= k < n ==> r.value.mappings[k] == r.value.mappings[..n][k];
        r
  }

  /** The row an upsert leaves under `pe.id`: the written columns, with the
      conflicting row's priority kept, or the column default 0 for a new id. */
  function UpsertedRow(st: Store, pe: PlatformEmulator): PlatformEmulator {
    match IndexOfKey(st.mappings, MappingKey, pe.id)
    case Some(i) => pe.(priority := st.mappings[i].priority)
    case None => pe.(priority := 0)
  }

  /** The id conflict: the row keeps its id and priority and takes the rest. */
  function OverwriteMapping(st: Store, i: nat, pe: PlatformEmulator): (r: Result<Store>)
    requires i < |st.mappings| && st.mappings[i].id == pe.id
    requires forall k :: 0 <= k < |st.mappings| && st.mappings[k].id != pe.id ==> Triple(st.mappings[k]) != Triple(pe)
    ensures r.Ok? && r.value.mappings == st.mappings[i := pe.(priority := st.mappings[i].priority)]
    ensures r.value.emulators == st.emulators && r.value.cores == st.cores &&
      r.value.settings == st.settings && r.value.art == st.art
    ensures forall k :: 0 <= k < |st.mappings| && st.mappings[k].id != pe.id ==> st.mappings[k] in r.value.mappings
    ensures Valid(st) ==> Valid(r.value)
  {
    var row := st.mappings[i].(platform := pe.platform, emulatorID := pe.emulatorID,
                               coreID := pe.coreID, isDefault := pe.isDefault);
    var ms := st.mappings[i := row];
    assert ms[i] == row && WrittenAs(row, pe);
    assert forall k :: 0 <= k < |st.mappings| && st.mappings[k].id != pe.id ==> ms[k] == st.mappings[k];
    Ok(st.(mappings := ms))
  }

  /** A new id: the row is appended with priority 0. */
  function InsertMapping(st: Store, pe: PlatformEmulator): (r: Result<Store>)
    requires forall k :: 0 <= k < |st.mappings| ==> st.mappings[k].id != pe.id
    requires forall k :: 0 <= k < |st.mappings| ==> Triple(st.mappings[k]) != Triple(pe)
    ensures r.Ok? && r.value.mappings == st.mappings + [pe.(priority := 0)]
    ensures r.value.emulators == st.emulators && r.value.cores == st.cores &&
      r.value.settings == st.settings && r.value.art == st.art
    ensures Valid(st) ==> Valid(r.value)
  {
    var row := PlatformEmulator(pe.id, pe.platform, pe.emulatorID, pe.coreID, pe.isDefault, 0);
    var ms := st.mappings + [row];
    assert ms[|st.mappings|] == row && WrittenAs(row, pe);
    assert ms[..|st.mappings|] == st.mappings;
    Ok(st.(mappings := ms))
  }

  predicate WrittenAs(m: PlatformEmulator, pe: PlatformEmulator) {
    m.id == pe.id && Triple(m) == Triple(pe) && m.isDefault == pe.isDefault
  }

  /** ClearPlatformEmulators: deletes every mapping. */
  function ClearPlatformEmulators(st: Store): (r: Store)
    ensures r.mappings == []
    ensures r.emulators == st.emulators && r.cores == st.cores && r.settings == st.settings && r.art == st.art
    ensures Valid(st) ==> Valid(r)
  {
    st.(mappings := [])
  }

  /** SetPlatformDefaultEmulator: clears is_default on every mapping of the
      platform, then sets it on the rows matching (platform, emulator, core). */
  function SetPlatformDefaultEmulator(st: Store, platform: string, emulatorID: string, coreID: string): (r: Store)
    ensures |r.mappings| == |st.mappings|
    ensures forall k :: 0 <= k < |st.mappings| && st.mappings[k].platform != platform ==> r.mappings[k] == st.mappings[k]
    ensures forall k :: 0 <= k < |st.mappings| && st.mappings[k].platform == platform ==>
      r.mappings[k] == st.mappings[k].(isDefault := Triple(st.mappings[k]) == (platform, emulatorID, coreID))
    ensures r.emulators == st.emulators && r.cores == st.cores && r.settings == st.settings && r.art == st.art
    ensures Valid(st) ==> Valid(r)
  {
    var cleared := Map(st.mappings, (m: PlatformEmulator) => if m.platform == platform then m.(isDefault := false) else m);
    var marked := Map(cleared, (m: PlatformEmulator) =>
      if m.platform == platform && m.emulatorID == emulatorID && m.coreID == coreID then m.(isDefault := true) else m);
    assert Valid(st) ==> Valid(st.(mappings := marked)) by {
      if Valid(st) { SameMappingShapeValid(st, marked); }
    }
    st.(mappings := marked)
  }

  /** After SetPlatformDefaultEmulator on a valid store the platform has at
      most one default mapping, and it is the requested triple. */
  lemma SetDefaultSingle(st: Store, platform: string, emulatorID: string, coreID: string)
    requires Valid(st)
    ensures var r := SetPlatformDefaultEmulator(st, platform, emulatorID, coreID);
      forall i, j :: 0 <= i < j < |r.mappings| && r.mappings[i].platform == platform && r.mappings[j].platform == platform
        ==> !(r.mappings[i].isDefault && r.mappings[j].isDefault)
    ensures var r := SetPlatformDefaultEmulator(st, platform, emulatorID, coreID);
      forall k :: 0 <= k < |r.mappings| && r.mappings[k].platform == platform && r.mappings[k].isDefault
        ==> Triple(r.mappings[k]) == (platform, emulatorID, coreID)
  {
    var r := SetPlatformDefaultEmulator(st, platform, emulatorID, coreID);
    forall i, j | 0 <= i < j < |r.mappings| && r.mappings[i].platform == platform && r.mappings[j].platform == platform
      ensures !(r.mappings[i].isDefault && r.mappings[j].isDefault)
    {
      assert Triple(st.mappings[i]) != Triple(st.mappings[j]);
    }
  }

  /** When no mapping matches the requested triple, the platform is left
      without a default and the default lookup fails. */
  lemma SetDefaultNoMatch(st: Store, platform: string, emulatorID: string, coreID: string, requireAvailable: bool)
    requires forall k :: 0 <= k < |st.mappings| ==> Triple(st.mappings[k]) != (platform, emulatorID, coreID)
    ensures GetDefaultEmulatorForPlatform(SetPlatformDefaultEmulator(st, platform, emulatorID, coreID), platform, requireAvailable).Err?
  {
    var r := SetPlatformDefaultEmulator(st, platform, emulatorID, coreID);
    assert forall k :: 0 <= k < |r.mappings| && r.mappings[k].platform == platform ==> !r.mappings[k].isDefault;
    NoDefaultMapping(r, platform, requireAvailable);
  }

  /** A platform none of whose mappings is the default has no default. */
  lemma NoDefaultMapping(st: Store, platform: string, requireAvailable: bool)
    requires forall k :: 0 <= k < |st.mappings| && st.mappings[k].platform == platform ==> !st.mappings[k].isDefault
    ensures GetDefaultEmulatorForPlatform(st, platform, requireAvailable).Err?
  {
    var rows := JoinRows(st, platform);
    forall row | row in rows ensures !DefaultSelected(row, requireAvailable) {
      var k :| 0 <= k < |rows| && rows[k] == row;
      assert JoinedFrom(st, platform, row);
      var i :| 0 <= i < |st.mappings| && st.mappings[i] == row.mapping;
    }
  }

  // ---------------------------------------------------------------------
  // The mapping/emulator/core join

  /** An emulator and its optional core, as the join queries return them. */
  datatype Pair = Pair(emulator: Emulator, core: Option<EmulatorCore>)

  datatype JoinRow = JoinRow(mapping: PlatformEmulator, pair: Pair)

  /** The emulator columns the join queries select: supported_platforms is
      not among them, so the list comes back empty. */
  function AsJoined(e: Emulator): Emulator {
    e.(supportedPlatforms := [])
  }

  /** The cores the LEFT JOIN condition `pe.core_id = c.core_id AND
      c.emulator_id = e.id` matches. */
  predicate CoreJoins(c: EmulatorCore, m: PlatformEmulator, e: Emulator) {
    c.coreID == m.coreID && c.emulatorID == e.id
  }

  function MatchingCores(cores: seq<EmulatorCore>, m: PlatformEmulator, e: Emulator): (r: seq<EmulatorCore>)
    ensures forall c :: c in r <==> c in cores && CoreJoins(c, m, e)
  {
    if cores == [] then []
    else if CoreJoins(cores[0], m, e) then [cores[0]] + MatchingCores(cores[1..], m, e)
    else MatchingCores(cores[1..], m, e)
  }

  /** The LEFT JOIN of one (mapping, emulator) row: one row per matching
      core, or a single row with a NULL core when none matches. */
  function LeftJoinCores(m: PlatformEmulator, e: Emulator, cores: seq<EmulatorCore>): (r: seq<JoinRow>)
    ensures forall k :: 0 <= k < |r| ==> r[k].mapping == m && r[k].pair.emulator == AsJoined(e)
    ensures forall k :: 0 <= k < |r| && r[k].pair.core.Some? ==>
      r[k].pair.core.value in cores && CoreJoins(r[k].pair.core.value, m, e)
    ensures forall k :: 0 <= k < |r| && r[k].pair.core.None? ==>
      forall c :: c in cores ==> !CoreJoins(c, m, e)
    ensures (forall c :: c in cores ==> !CoreJoins(c, m, e)) ==> r == [JoinRow(m, Pair(AsJoined(e), None))]
    ensures forall c :: c in cores && CoreJoins(c, m, e) ==> JoinRow(m, Pair(AsJoined(e), Some(c))) in r
  {
    var cs := MatchingCores(cores, m, e);
    if cs == [] then [JoinRow(m, Pair(AsJoined(e), None))]
    else Map(cs, (c: EmulatorCore) => JoinRow(m, Pair(AsJoined(e), Some(c))))
  }

  /** The inner join of one mapping with the emulators table. */
  function JoinMapping(m: PlatformEmulator, emus: seq<Emulator>, cores: seq<EmulatorCore>): (r: seq<JoinRow>)
    ensures forall k :: 0 <= k < |r| ==> (r[k].mapping == m &&
      exists e :: e in emus && e.id == m.emulatorID && r[k] in LeftJoinCores(m, e, cores))
    ensures forall e :: e in emus && e.id == m.emulatorID ==>
      forall row :: row in LeftJoinCores(m, e, cores) ==> row in r
  {
    if emus == [] then []
    else
      var rest := JoinMapping(m, emus[1..], cores);
      if emus[0].id == m.emulatorID then LeftJoinCores(m, emus[0], cores) + rest else rest
  }

  /** `FROM emulators e JOIN platform_emulators pe ... LEFT JOIN
      emulator_cores c ... WHERE pe.platform = ?`, in mapping order. */
  function JoinRows(st: Store, platform: string): (r: seq<JoinRow>)
    ensures forall k :: 0 <= k < |r| ==> JoinedFrom(st, platform, r[k])
    ensures forall m, e, row ::
      (m in st.mappings && m.platform == platform && e in st.emulators &&
       e.id == m.emulatorID && row in LeftJoinCores(m, e, st.cores)) ==> row in r
  {
    JoinOver(st.mappings, st, platform)
  }

  function JoinOver(ms: seq<PlatformEmulator>, st: Store, platform: string): (r: seq<JoinRow>)
    requires forall m :: m in ms ==> m in st.mappings
    ensures forall k :: 0 <= k < |r| ==> JoinedFrom(st, platform, r[k])
    ensures forall m, e, row ::
      (m in ms && m.platform == platform && e in st.emulators &&
       e.id == m.emulatorID && row in LeftJoinCores(m, e, st.cores)) ==> row in r
  {
    if ms == [] then []
    else
      var rest := JoinOver(ms[1..], st, platform);
      if ms[0].platform == platform then JoinMapping(ms[0], st.emulators, st.cores) + rest else rest
  }

  /** `row` is a row of the join for `platform`: its mapping is in the
      table, its emulator is the mapping's, and its core is a joining core or
      NULL exactly when no core joins. */
  ghost predicate JoinedFrom(st: Store, platform: string, row: JoinRow) {
    row.mapping in st.mappings && row.mapping.platform == platform &&
    exists e :: e in st.emulators && e.id == row.mapping.emulatorID && row in LeftJoinCores(row.mapping, e, st.cores)
  }

  /** `e.is_available = 1 AND (c.core_id IS NULL OR c.is_available = 1)` */
  predicate PairAvailable(p: Pair) {
    p.emulator.isAvailable && (p.core.None? || p.core.value.isAvailable)
  }

  predicate DefaultSelected(row: JoinRow, requireAvailable: bool) {
    row.mapping.isDefault && (!requireAvailable || PairAvailable(row.pair))
  }

  /** GetDefaultEmulatorForPlatform: a join row whose mapping is the
      default (and, with requireAvailable, whose pair is available), or the
      no-rows error. QueryRow has no ORDER BY, so which selected row comes
      back is the database's choice; the model takes the first in mapping
      order, and the contract promises only some selected row. */
  function GetDefaultEmulatorForPlatform(st: Store, platform: string, requireAvailable: bool): (r: Result<Pair>)
    ensures r.Ok? ==> exists row :: row in JoinRows(st, platform) && row.pair == r.value && DefaultSelected(row, requireAvailable)
    ensures r.Ok? && requireAvailable ==> PairAvailable(r.value)
    ensures r.Err? <==> forall row :: row in JoinRows(st, platform) ==> !DefaultSelected(row, requireAvailable)
    ensures r.Err? ==> r.msg == NoRows
  {
    var rows := Filter(JoinRows(st, platform), (row: JoinRow) => DefaultSelected(row, requireAvailable));
    if rows == [] then Err(NoRows) else Ok(rows[0].pair)
  }

  /** The pairs of joined rows, in order. */
  function Pairs(rows: seq<JoinRow>): (ps: seq<Pair>)
    ensures |ps| == |rows|
    ensures forall k :: 0 <= k < |rows| ==> ps[k] == rows[k].pair
  {
    seq(|rows|, k requires 0 <= k < |rows| => rows[k].pair)
  }

  lemma PairsOfMember(rows: seq<JoinRow>, row: JoinRow)
    requires row in rows
    ensures row.pair in Pairs(rows)
  {
    var k :| 0 <= k < |rows| && rows[k] == row;
    assert Pairs(rows)[k] == row.pair;
  }

  /** The available pairs among joined rows, in row order. */
  function AvailablePairs(all: seq<JoinRow>): (r: seq<Pair>)
    ensures forall k :: 0 <= k < |r| ==> PairAvailable(r[k])
    ensures forall k :: 0 <= k < |r| ==> exists row :: row in all && row.pair == r[k]
    ensures forall row :: row in all && PairAvailable(row.pair) ==> row.pair in r
  {
    var rows := Filter(all, (row: JoinRow) => PairAvailable(row.pair));
    var pairs := Pairs(rows);
    assert forall row :: row in all && PairAvailable(row.pair) ==> row.pair in pairs by {
      forall row | row in all && PairAvailable(row.pair) ensures row.pair in pairs {
        var k :| 0 <= k < |all| && all[k] == row;
        PairsOfMember(rows, row);
      }
    }
    pairs
  }

  /** GetAvailableEmulatorsForPlatform: the available pairs of the join.
      Every priority is 0 (see `Valid`), so ORDER BY priority leaves the
      order of the rows to the database; the model lists them in mapping
      order, and the contract promises membership only. */
  function GetAvailableEmulatorsForPlatform(st: Store, platform: string): (r: seq<Pair>)
    ensures forall k :: 0 <= k < |r| ==> PairAvailable(r[k])
    ensures forall k :: 0 <= k < |r| ==> exists row :: row in JoinRows(st, platform) && row.pair == r[k]
    ensures forall row :: row in JoinRows(st, platform) && PairAvailable(row.pair) ==> row.pair in r
  {
    AvailablePairs(JoinRows(st, platform))
  }

  // ---------------------------------------------------------------------
  // Per-instance overrides

  /** SetInstanceEmulatorSettings: an upsert keyed by instance id. */
  function SetInstanceEmulatorSettings(st: Store, instanceID: string, emulatorID: string, coreID: string, customArgs: string): (r: Store)
    ensures instanceID in r.settings
    ensures r.settings[instanceID] == InstanceEmulatorSettings(instanceID, emulatorID, coreID, customArgs)
    ensures forall id :: id != instanceID ==> (id in r.settings <==> id in st.settings)
    ensures forall id :: id != instanceID && id in st.settings ==> r.settings[id] == st.settings[id]
    ensures r.emulators == st.emulators && r.cores == st.cores && r.mappings == st.mappings && r.art == st.art
  {
    st.(settings := st.settings[instanceID := InstanceEmulatorSettings(instanceID, emulatorID, coreID, customArgs)])
  }

  /** GetInstanceEmulatorSettings: the stored row, or the no-rows error. */
  function GetInstanceEmulatorSettings(st: Store, instanceID: string): (r: Result<InstanceEmulatorSettings>)
    ensures r.Ok? <==> instanceID in st.settings
    ensures r.Ok? ==> r.value == st.settings[instanceID]
  {
    if instanceID in st.settings then Ok(st.settings[instanceID]) else Err(NoRows)
  }

  /** A read returns the last write for that instance and is unaffected by
      writes for other instances. */
  lemma SettingsReadBack(st: Store, instanceID: string, emulatorID: string, coreID: string, customArgs: string, other: string)
    requires other != instanceID
    ensures GetInstanceEmulatorSettings(SetInstanceEmulatorSettings(st, instanceID, emulatorID, coreID, customArgs), instanceID)
      == Ok(InstanceEmulatorSettings(instanceID, emulatorID, coreID, customArgs))
    ensures GetInstanceEmulatorSettings(SetInstanceEmulatorSettings(st, instanceID, emulatorID, coreID, customArgs), other)
      == GetInstanceEmulatorSettings(st, other)
  {
  }

  // ---------------------------------------------------------------------
  // Game art

  /** StoreGameArt: an upsert keyed by (game, art type). */
  function StoreGameArt(st: Store, gameID: string, artType: string, url: string, source: string): (r: Store)
    ensures (gameID, artType) in r.art && r.art[(gameID, artType)] == ArtRow(url, source)
    ensures forall key :: key != (gameID, artType) ==> (key in r.art <==> key in st.art)
    ensures forall key :: key != (gameID, artType) && key in st.art ==> r.art[key] == st.art[key]
    ensures r.emulators == st.emulators && r.cores == st.cores && r.mappings == st.mappings && r.settings == st.settings
  {
    st.(art := st.art[(gameID, artType) := ArtRow(url, source)])
  }

  /** GetGameArtSource: the stored source, or "" when there is no row. */
  function GetGameArtSource(st: Store, gameID: string, artType: string): (r: string)
    ensures (gameID, artType) !in st.art ==> r == ""
    ensures (gameID, artType) in st.art ==> r == st.art[(gameID, artType)].source
  {
    if (gameID, artType) in st.art then st.art[(gameID, artType)].source else ""
  }

  lemma ArtSourceReadBack(st: Store, gameID: string, artType: string, url: string, source: string, g2: string, t2: string)
    ensures GetGameArtSource(StoreGameArt(st, gameID, artType, url, source), gameID, artType) == source
    ensures (g2, t2) != (gameID, artType) ==>
      GetGameArtSource(StoreGameArt(st, gameID, artType, url, source), g2, t2) == GetGameArtSource(st, g2, t2)
  {
  }
}
