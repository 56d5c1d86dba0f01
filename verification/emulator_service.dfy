/** The emulator service: seeding the store from the default tables,
    regenerating platform mappings, discovering which emulators and cores
    are installed, and resolving the emulator a game instance launches with.
    Host probes (`flatpak info`, a PATH lookup, a file-existence check) and
    HOME are inputs. */
module EmulatorService {
  import opened Wrappers
  import opened Models
  import opened Text
  import opened Seqs
  import opened Defaults
  import opened Store

  // ---------------------------------------------------------------------
  // Platform mappings

  /** isDefaultConfig: the platform has a table default with exactly this
      emulator and core. */
  predicate IsDefaultConfig(platform: string, emulatorID: string, coreID: string) {
    platform in DefaultEmulatorsByPlatform &&
    DefaultEmulatorsByPlatform[platform].emulatorID == emulatorID &&
    DefaultEmulatorsByPlatform[platform].coreID == coreID
  }

  function StandaloneMapping(platform: string, e: Emulator): PlatformEmulator {
    PlatformEmulator(platform + "_" + e.id, platform, e.id, "", IsDefaultConfig(platform, e.id, ""), 0)
  }

  function CoreMapping(platform: string, c: EmulatorCore): PlatformEmulator {
    PlatformEmulator(platform + "_" + c.emulatorID + "_" + c.coreID, platform, c.emulatorID, c.coreID,
                     IsDefaultConfig(platform, c.emulatorID, c.coreID), 0)
  }

  /** One mapping per (emulator, supported platform), in table order. */
  function StandaloneMappings(emus: seq<Emulator>): (r: seq<PlatformEmulator>)
    ensures forall m :: m in r ==> exists e :: e in emus && m.platform in e.supportedPlatforms && m == StandaloneMapping(m.platform, e)
    ensures forall e, p :: e in emus && p in e.supportedPlatforms ==> StandaloneMapping(p, e) in r
  {
    if emus == [] then []
    else
      var head := Map(emus[0].supportedPlatforms, (p: string) => StandaloneMapping(p, emus[0]));
      var r := head + StandaloneMappings(emus[1..]);
      assert forall p :: p in emus[0].supportedPlatforms ==> StandaloneMapping(p, emus[0]) in head by {
        forall p | p in emus[0].supportedPlatforms ensures StandaloneMapping(p, emus[0]) in head {
          var i :| 0 <= i < |emus[0].supportedPlatforms| && emus[0].supportedPlatforms[i] == p;
          assert head[i] == StandaloneMapping(p, emus[0]);
        }
      }
      assert forall e :: e in emus ==> e == emus[0] || e in emus[1..];
      r
  }

  /** One mapping per (core, supported platform), in table order. */
  function CoreMappings(cores: seq<EmulatorCore>): (r: seq<PlatformEmulator>)
    ensures forall m :: m in r ==> exists c :: c in cores && m.platform in c.supportedPlatforms && m == CoreMapping(m.platform, c)
    ensures forall c, p :: c in cores && p in c.supportedPlatforms ==> CoreMapping(p, c) in r
  {
    if cores == [] then []
    else
      var head := Map(cores[0].supportedPlatforms, (p: string) => CoreMapping(p, cores[0]));
      var r := head + CoreMappings(cores[1..]);
      assert forall p :: p in cores[0].supportedPlatforms ==> CoreMapping(p, cores[0]) in head by {
        forall p | p in cores[0].supportedPlatforms ensures CoreMapping(p, cores[0]) in head {
          var i :| 0 <= i < |cores[0].supportedPlatforms| && cores[0].supportedPlatforms[i] == p;
          assert head[i] == CoreMapping(p, cores[0]);
        }
      }
      assert forall c :: c in cores ==> c == cores[0] || c in cores[1..];
      r
  }

  /** Everything regeneration writes: the emulators' rows, then the cores'. */
  function GeneratedRows(st: Store): seq<PlatformEmulator> {
    StandaloneMappings(st.emulators) + CoreMappings(st.cores)
  }

  /** The generated id has the form "<platform>_<emulator>" for a standalone
      emulator or "<platform>_<emulator>_<core>" for a core. */
  predicate WellNamed(m: PlatformEmulator) {
    (m.coreID == "" && m.id == m.platform + "_" + m.emulatorID) ||
    m.id == m.platform + "_" + m.emulatorID + "_" + m.coreID
  }

  /** The default flag agrees with the default table. */
  predicate DefaultFlagConsistent(m: PlatformEmulator) {
    m.isDefault == IsDefaultConfig(m.platform, m.emulatorID, m.coreID)
  }

  // ---------------------------------------------------------------------
  // When regeneration succeeds

  /** Rows that agree wherever they share an id or a triple: upserting them
      can neither trip the UNIQUE constraint nor overwrite a different row. */
  predicate Coherent(rows: seq<PlatformEmulator>) {
    forall a, b :: a in rows && b in rows && Clash(a, b) ==> a == b
  }

  /** Two rows meet on the primary key or on the UNIQUE triple. */
  predicate Clash(a: PlatformEmulator, b: PlatformEmulator) {
    a.id == b.id || Triple(a) == Triple(b)
  }

  /** Names the generated ids can be read back from: platforms and emulator
      ids hold no '_' and every core id is non-empty. Core ids may hold '_'. */
  predicate Separable(st: Store) {
    (forall e :: e in st.emulators ==> '_' !in e.id && forall p :: p in e.supportedPlatforms ==> '_' !in p) &&
    (forall c :: c in st.cores ==>
      c.coreID != "" && '_' !in c.emulatorID && forall p :: p in c.supportedPlatforms ==> '_' !in p)
  }

  /** Splitting at the first '_': a '_'-free head is determined. */
  lemma SplitAtUnderscore(a: string, b: string, c: string, d: string)
    requires '_' !in a && '_' !in c && a + "_" + b == c + "_" + d
    ensures a == c && b == d
  {
    SplitPrefix(a, b, '_');
    SplitPrefix(c, d, '_');
    assert a == Split(a + "_" + b, '_')[0] == c;
    assert b == (a + "_" + b)[|a| + 1..] && d == (c + "_" + d)[|c| + 1..];
  }

  /** The id of a core row splits into platform, emulator and the rest. */
  lemma SplitCoreId(p: string, e: string, c: string, q: string, f: string, d: string)
    requires '_' !in p && '_' !in e && '_' !in q && '_' !in f
    requires p + "_" + e + "_" + c == q + "_" + f + "_" + d
    ensures p == q && e == f && c == d
  {
    assert p + "_" + e + "_" + c == p + "_" + (e + "_" + c);
    assert q + "_" + f + "_" + d == q + "_" + (f + "_" + d);
    SplitAtUnderscore(p, e + "_" + c, q, f + "_" + d);
    SplitAtUnderscore(e, c, f, d);
  }

  /** A standalone id never equals a core id of '_'-free names. */
  lemma StandaloneIdNotCoreId(p: string, e: string, q: string, f: string, d: string)
    requires '_' !in p && '_' !in e && '_' !in q && '_' !in f
    ensures p + "_" + e != q + "_" + f + "_" + d
  {
    assert q + "_" + f + "_" + d == q + "_" + (f + "_" + d);
    SplitPrefix(p, e, '_');
    SplitNoSep(e, '_');
    SplitPrefix(q, f + "_" + d, '_');
    SplitPrefix(f, d, '_');
    assert |Split(p + "_" + e, '_')| == 2 < |Split(q + "_" + f + "_" + d, '_')|;
  }

  /** Two generated rows sharing an id or a triple are the same row. */
  lemma GeneratedRowsAgree(st: Store, a: PlatformEmulator, b: PlatformEmulator)
    requires Separable(st) && a in GeneratedRows(st) && b in GeneratedRows(st)
    requires a.id == b.id || Triple(a) == Triple(b)
    ensures a == b
  {
    GeneratedShape(st, a);
    GeneratedShape(st, b);
    if a.id == b.id {
      if a.coreID == "" && b.coreID == "" {
        SplitAtUnderscore(a.platform, a.emulatorID, b.platform, b.emulatorID);
      } else if a.coreID != "" && b.coreID != "" {
        SplitCoreId(a.platform, a.emulatorID, a.coreID, b.platform, b.emulatorID, b.coreID);
      } else if a.coreID == "" {
        StandaloneIdNotCoreId(a.platform, a.emulatorID, b.platform, b.emulatorID, b.coreID);
      } else {
        StandaloneIdNotCoreId(b.platform, b.emulatorID, a.platform, a.emulatorID, a.coreID);
      }
    }
  }

  /** The rows generated from separable names are coherent. */
  lemma SeparableCoherent(st: Store)
    requires Separable(st)
    ensures Coherent(GeneratedRows(st))
  {
    forall a, b | a in GeneratedRows(st) && b in GeneratedRows(st) && Clash(a, b)
      ensures a == b
    {
      GeneratedRowsAgree(st, a, b);
    }
  }

  /** What a generated row looks like, with the names it is built from. */
  lemma GeneratedShape(st: Store, m: PlatformEmulator)
    requires Separable(st) && m in GeneratedRows(st)
    ensures m.priority == 0 && '_' !in m.platform && '_' !in m.emulatorID
    ensures m.isDefault == IsDefaultConfig(m.platform, m.emulatorID, m.coreID)
    ensures m.coreID == "" ==> m.id == m.platform + "_" + m.emulatorID
    ensures m.coreID != "" ==> m.id == m.platform + "_" + m.emulatorID + "_" + m.coreID
  {
    if m in StandaloneMappings(st.emulators) {
      var e :| e in st.emulators && m.platform in e.supportedPlatforms && m == StandaloneMapping(m.platform, e);
    } else {
      var c :| c in st.cores && m.platform in c.supportedPlatforms && m == CoreMapping(m.platform, c);
    }
  }

  /** Upserting coherent rows with priority 0 succeeds, and the table ends
      holding exactly the rows it held plus the upserted ones. */
  lemma {:induction false} UpsertAllCoherent(st: Store, rows: seq<PlatformEmulator>)
    requires Coherent(st.mappings + rows)
    requires forall g :: g in rows ==> g.priority == 0
    ensures UpsertAll(st, rows).Ok?
    ensures forall m :: m in UpsertAll(st, rows).value.mappings <==> m in st.mappings || m in rows
    decreases |rows|
  {
    if rows != [] {
      var g, all := rows[0], st.mappings + rows;
      UpsertCoherentStep(st, g, all);
      var st1 := UpsertPlatformEmulator(st, g).value;
      CoherentSubset(st1.mappings + rows[1..], all);
      UpsertAllCoherent(st1, rows[1..]);
      assert forall m :: m in rows <==> m == g || m in rows[1..];
    }
  }

  /** One upsert of a row coherent with the table succeeds and adds just that row. */
  lemma UpsertCoherentStep(st: Store, g: PlatformEmulator, all: seq<PlatformEmulator>)
    requires Coherent(all) && g in all && g.priority == 0
    requires forall m :: m in st.mappings ==> m in all
    ensures UpsertPlatformEmulator(st, g).Ok?
    ensures forall m :: m in UpsertPlatformEmulator(st, g).value.mappings <==> m in st.mappings || m == g
  {
    forall k | 0 <= k < |st.mappings| && st.mappings[k].id != g.id ensures Triple(st.mappings[k]) != Triple(g) {
      assert st.mappings[k] in all;
    }
    var st1 := UpsertPlatformEmulator(st, g).value;
    assert UpsertedRow(st, g) == g by {
      match IndexOfKey(st.mappings, MappingKey, g.id)
      case Some(i) => assert st.mappings[i] in all;
      case None =>
    }
    forall m ensures m in st1.mappings <==> m in st.mappings || m == g {
      if m in st.mappings && m.id == g.id {
        assert m in all;
      } else if m in st.mappings {
        var k :| 0 <= k < |st.mappings| && st.mappings[k] == m;
      }
    }
  }

  /** Rows drawn from a coherent collection are coherent. */
  lemma CoherentSubset(xs: seq<PlatformEmulator>, ys: seq<PlatformEmulator>)
    requires Coherent(ys) && forall m :: m in xs ==> m in ys
    ensures Coherent(xs)
  {
  }

  /** Upserting the rows one after the other, stopping at the first failure. */
  function UpsertAll(st: Store, rows: seq<PlatformEmulator>): (r: Result<Store>)
    ensures r.Ok? ==> r.value.emulators == st.emulators && r.value.cores == st.cores
    ensures r.Ok? && Valid(st) ==> Valid(r.value)
    ensures r.Ok? ==> forall m :: m in r.value.mappings ==> m in st.mappings || exists g :: g in rows && WrittenAs(m, g)
    decreases |rows|
  {
    if rows == [] then Ok(st)
    else
      match UpsertPlatformEmulator(st, rows[0])
      case Err(e) => Err(e)
      case Ok(st1) =>
        var r := UpsertAll(st1, rows[1..]);
        assert r.Ok? ==> forall m :: m in r.value.mappings ==> m in st.mappings || exists g :: g in rows && WrittenAs(m, g) by {
          if r.Ok? {
            forall m | m in r.value.mappings ensures m in st.mappings || exists g :: g in rows && WrittenAs(m, g) {
              if m !in st1.mappings {
                var g :| g in rows[1..] && WrittenAs(m, g);
                assert g in rows;
              } else if m !in st.mappings {
                assert m == UpsertedRow(st, rows[0]);
                assert WrittenAs(m, rows[0]);
              }
            }
          }
        }
        r
  }

  /** regeneratePlatformMappings: clear every mapping, then upsert one per
      (emulator, platform) and one per (core, platform). */
  function RegeneratePlatformMappings(st: Store): (r: Result<Store>)
    ensures Separable(st) ==> r.Ok? && forall m :: m in r.value.mappings <==> m in GeneratedRows(st)
    ensures r.Ok? ==> r.value.emulators == st.emulators && r.value.cores == st.cores
    ensures r.Ok? && Valid(st) ==> Valid(r.value)
    ensures r.Ok? ==> forall m :: m in r.value.mappings ==>
      WellNamed(m) && DefaultFlagConsistent(m) &&
      ((m.coreID == "" && exists e :: e in st.emulators && e.id == m.emulatorID && m.platform in e.supportedPlatforms) ||
       (exists c :: c in st.cores && c.emulatorID == m.emulatorID && c.coreID == m.coreID && m.platform in c.supportedPlatforms))
  {
    var rows := StandaloneMappings(st.emulators) + CoreMappings(GetEmulatorCores(st, ""));
    var r := UpsertAll(ClearPlatformEmulators(st), rows);
    assert Separable(st) ==> r.Ok? && forall m :: m in r.value.mappings <==> m in GeneratedRows(st) by {
      if Separable(st) {
        SeparableCoherent(st);
        assert ClearPlatformEmulators(st).mappings + rows == GeneratedRows(st);
        forall g | g in rows ensures g.priority == 0 { GeneratedShape(st, g); }
        UpsertAllCoherent(ClearPlatformEmulators(st), rows);
      }
    }
    assert r.Ok? ==> forall m :: m in r.value.mappings ==>
      WellNamed(m) && DefaultFlagConsistent(m) &&
      ((m.coreID == "" && exists e :: e in st.emulators && e.id == m.emulatorID && m.platform in e.supportedPlatforms) ||
       (exists c :: c in st.cores && c.emulatorID == m.emulatorID && c.coreID == m.coreID && m.platform in c.supportedPlatforms)) by {
      if r.Ok? {
        forall m | m in r.value.mappings
          ensures WellNamed(m) && DefaultFlagConsistent(m) &&
            ((m.coreID == "" && exists e :: e in st.emulators && e.id == m.emulatorID && m.platform in e.supportedPlatforms) ||
             (exists c :: c in st.cores && c.emulatorID == m.emulatorID && c.coreID == m.coreID && m.platform in c.supportedPlatforms))
        {
          var g :| g in rows && WrittenAs(m, g);
          if g in StandaloneMappings(st.emulators) {
            var e :| e in st.emulators && g.platform in e.supportedPlatforms && g == StandaloneMapping(g.platform, e);
          } else {
            assert g in CoreMappings(st.cores);
            var c :| c in st.cores && g.platform in c.supportedPlatforms && g == CoreMapping(g.platform, c);
          }
        }
      }
    }
    r
  }

  /** Combined with the default table, regeneration leaves each platform at
      most one default mapping, and that mapping is the table's choice. */
  lemma RegenerateSingleDefault(st: Store, platform: string)
    requires Valid(st)
    requires RegeneratePlatformMappings(st).Ok?
    ensures var ms := RegeneratePlatformMappings(st).value.mappings;
      forall i, j :: 0 <= i < j < |ms| && ms[i].platform == platform && ms[j].platform == platform
        ==> !(ms[i].isDefault && ms[j].isDefault)
    ensures var ms := RegeneratePlatformMappings(st).value.mappings;
      forall k :: 0 <= k < |ms| && ms[k].platform == platform && ms[k].isDefault ==>
        platform in DefaultEmulatorsByPlatform &&
        DefaultConfig(ms[k].emulatorID, ms[k].coreID) == DefaultEmulatorsByPlatform[platform]
  {
    var r := RegeneratePlatformMappings(st).value;
    var ms := r.mappings;
    forall i, j | 0 <= i < j < |ms| && ms[i].platform == platform && ms[j].platform == platform
      ensures !(ms[i].isDefault && ms[j].isDefault)
    {
      assert ms[i] in ms && ms[j] in ms;
      assert Triple(ms[i]) != Triple(ms[j]);
    }
    forall k | 0 <= k < |ms| && ms[k].platform == platform && ms[k].isDefault
      ensures platform in DefaultEmulatorsByPlatform &&
        DefaultConfig(ms[k].emulatorID, ms[k].coreID) == DefaultEmulatorsByPlatform[platform]
    {
      assert ms[k] in ms;
    }
  }

  /** No later element of `xs` shares the key of `xs[k]`: the write that
      decides what a sequence of upserts leaves under that key. */
  predicate LastWithKey<T>(xs: seq<T>, key: T -> string, k: int)
    requires 0 <= k < |xs|
  {
    forall j :: k < j < |xs| ==> key(xs[j]) != key(xs[k])
  }

  /** Seeding upserts every default emulator, then every default core. */
  function SeedEmulators(st: Store, emus: seq<Emulator>): (r: Store)
    ensures r.cores == st.cores && r.mappings == st.mappings
    ensures Valid(st) ==> Valid(r)
    ensures forall id :: (forall k :: 0 <= k < |emus| ==> emus[k].id != id) ==> GetEmulator(r, id) == GetEmulator(st, id)
    decreases |emus|
  {
    if emus == [] then st else SeedEmulators(UpsertEmulator(st, emus[0]), emus[1..])
  }

  /** After seeding, each seeded id reads back the columns of its last
      seeded row, and a row that was already stored keeps is_available. */
  lemma {:induction false} SeededEmulatorsPresent(st: Store, emus: seq<Emulator>, k: nat)
    requires k < |emus| && LastWithKey(emus, EmulatorKey, k)
    ensures var g := GetEmulator(SeedEmulators(st, emus), emus[k].id);
      g.Ok? && SameColumns(g.value, emus[k]) &&
      (GetEmulator(st, emus[k].id).Ok? ==> g.value.isAvailable == GetEmulator(st, emus[k].id).value.isAvailable)
    decreases |emus|
  {
    var st1 := UpsertEmulator(st, emus[0]);
    if k == 0 {
      assert forall j :: 0 <= j < |emus[1..]| ==> emus[1..][j].id != emus[0].id;
    } else {
      assert LastWithKey(emus[1..], EmulatorKey, k - 1);
      SeededEmulatorsPresent(st1, emus[1..], k - 1);
    }
  }

  /** Every row left after seeding was stored before or is a seeded row. */
  lemma {:induction false} SeededEmulatorsOrigin(st: Store, emus: seq<Emulator>)
    ensures forall x :: x in SeedEmulators(st, emus).emulators ==>
      x in st.emulators || exists e :: e in emus && SameColumns(x, e)
    decreases |emus|
  {
    if emus != [] {
      var st1 := UpsertEmulator(st, emus[0]);
      SeededEmulatorsOrigin(st1, emus[1..]);
      forall x | x in SeedEmulators(st, emus).emulators ensures x in st.emulators || exists e :: e in emus && SameColumns(x, e) {
        if x !in st1.emulators {
          var e :| e in emus[1..] && SameColumns(x, e);
          assert e in emus;
        } else if x !in st.emulators {
          assert SameColumns(x, emus[0]);
        }
      }
    }
  }

  function SeedCores(st: Store, cores: seq<EmulatorCore>): (r: Store)
    ensures r.emulators == st.emulators && r.mappings == st.mappings
    ensures Valid(st) ==> Valid(r)
    ensures forall id :: (forall k :: 0 <= k < |cores| ==> cores[k].id != id) ==> CoreByID(r, id) == CoreByID(st, id)
    decreases |cores|
  {
    if cores == [] then st else SeedCores(UpsertEmulatorCore(st, cores[0]), cores[1..])
  }

  /** After seeding, each seeded core id reads back the columns of its last
      seeded row, and a row that was already stored keeps is_available. */
  lemma {:induction false} SeededCoresPresent(st: Store, cores: seq<EmulatorCore>, k: nat)
    requires k < |cores| && LastWithKey(cores, CoreKey, k)
    ensures var g := CoreByID(SeedCores(st, cores), cores[k].id);
      g.Some? && SameCoreColumns(g.value, cores[k]) &&
      (CoreByID(st, cores[k].id).Some? ==> g.value.isAvailable == CoreByID(st, cores[k].id).value.isAvailable)
    decreases |cores|
  {
    var st1 := UpsertEmulatorCore(st, cores[0]);
    if k == 0 {
      assert forall j :: 0 <= j < |cores[1..]| ==> cores[1..][j].id != cores[0].id;
    } else {
      assert LastWithKey(cores[1..], CoreKey, k - 1);
      SeededCoresPresent(st1, cores[1..], k - 1);
    }
  }

  lemma {:induction false} SeededCoresOrigin(st: Store, cores: seq<EmulatorCore>)
    ensures forall x :: x in SeedCores(st, cores).cores ==>
      x in st.cores || exists c :: c in cores && SameCoreColumns(x, c)
    decreases |cores|
  {
    if cores != [] {
      var st1 := UpsertEmulatorCore(st, cores[0]);
      SeededCoresOrigin(st1, cores[1..]);
      forall x | x in SeedCores(st, cores).cores ensures x in st.cores || exists c :: c in cores && SameCoreColumns(x, c) {
        if x !in st1.cores {
          var c :| c in cores[1..] && SameCoreColumns(x, c);
          assert c in cores;
        } else if x !in st.cores {
          assert SameCoreColumns(x, cores[0]);
        }
      }
    }
  }

  /** The store after seeding both default tables. */
  function Seeded(st: Store): Store {
    SeedCores(SeedEmulators(st, DefaultEmulators), DefaultCores)
  }

  /** Initialize: seed emulators and cores, then regenerate the mappings.
      When the stored names are separable it succeeds, and the mappings are
      exactly the rows generated from the seeded tables. */
  function Initialize(st: Store): (r: Result<Store>)
    ensures r.Ok? && Valid(st) ==> Valid(r.value)
    ensures r.Ok? ==> forall m :: m in r.value.mappings ==> WellNamed(m) && DefaultFlagConsistent(m)
    ensures Separable(st) ==> r.Ok? && forall m :: m in r.value.mappings <==> m in GeneratedRows(Seeded(st))
  {
    assert Separable(st) ==> Separable(Seeded(st)) by {
      if Separable(st) { SeededSeparable(st); }
    }
    RegeneratePlatformMappings(Seeded(st))
  }

  /** A seeded emulator's standalone rows are among Initialize's mappings. */
  lemma {:induction false} SeededEmulatorMapped(st: Store, k: nat, p: string)
    requires Separable(st) && k < |DefaultEmulators| && LastWithKey(DefaultEmulators, EmulatorKey, k)
    requires p in DefaultEmulators[k].supportedPlatforms
    ensures StandaloneMapping(p, DefaultEmulators[k]) in Initialize(st).value.mappings
  {
    var s1 := SeedEmulators(st, DefaultEmulators);
    var s2 := Seeded(st);
    SeededEmulatorsPresent(st, DefaultEmulators, k);
    var x := GetEmulator(s1, DefaultEmulators[k].id).value;
    assert x in s2.emulators && p in x.supportedPlatforms;
    assert StandaloneMapping(p, x) == StandaloneMapping(p, DefaultEmulators[k]);
    InAppendLeft(StandaloneMapping(p, x), StandaloneMappings(s2.emulators), CoreMappings(s2.cores));
  }

  /** A seeded core's rows are among Initialize's mappings. */
  lemma {:induction false} SeededCoreMapped(st: Store, k: nat, p: string)
    requires Separable(st) && k < |DefaultCores| && LastWithKey(DefaultCores, CoreKey, k)
    requires p in DefaultCores[k].supportedPlatforms
    ensures CoreMapping(p, DefaultCores[k]) in Initialize(st).value.mappings
  {
    var s1 := SeedEmulators(st, DefaultEmulators);
    var s2 := Seeded(st);
    SeededCoresPresent(s1, DefaultCores, k);
    var y := CoreByID(s2, DefaultCores[k].id).value;
    assert y in s2.cores && p in y.supportedPlatforms;
    assert CoreMapping(p, y) == CoreMapping(p, DefaultCores[k]);
    InAppendRight(CoreMapping(p, y), StandaloneMappings(s2.emulators), CoreMappings(s2.cores));
  }

  /** From any store with separable names, Initialize marks every platform
      of the default table with exactly its default emulator and core. */
  lemma InitializeMarksDefaults(st: Store, p: string)
    requires Separable(st) && p in DefaultEmulatorsByPlatform
    ensures exists m :: (m in Initialize(st).value.mappings && m.platform == p && m.isDefault &&
      DefaultConfig(m.emulatorID, m.coreID) == DefaultEmulatorsByPlatform[p])
  {
    DefaultRowsFacts();
    var m;
    if p == "wii" {
      SeededEmulatorMapped(st, 2, p);
      m := StandaloneMapping(p, DefaultEmulators[2]);
    } else if p == "nes" {
      SeededCoreMapped(st, 0, p);
      m := CoreMapping(p, DefaultCores[0]);
    } else {
      SeededCoreMapped(st, 2, p);
      m := CoreMapping(p, DefaultCores[2]);
    }
  }

  /** The rows of the default tables that carry each platform's default. */
  lemma DefaultRowsFacts()
    ensures |DefaultEmulators| > 2 && LastWithKey(DefaultEmulators, EmulatorKey, 2) && "wii" in DefaultEmulators[2].supportedPlatforms
    ensures |DefaultCores| > 2 && LastWithKey(DefaultCores, CoreKey, 0) && "nes" in DefaultCores[0].supportedPlatforms
    ensures LastWithKey(DefaultCores, CoreKey, 2) && "snes" in DefaultCores[2].supportedPlatforms
    ensures forall p :: p in DefaultEmulatorsByPlatform <==> p == "wii" || p == "nes" || p == "snes"
    ensures var m := StandaloneMapping("wii", DefaultEmulators[2]);
      m.isDefault && DefaultConfig(m.emulatorID, m.coreID) == DefaultEmulatorsByPlatform["wii"]
    ensures var m := CoreMapping("nes", DefaultCores[0]);
      m.isDefault && DefaultConfig(m.emulatorID, m.coreID) == DefaultEmulatorsByPlatform["nes"]
    ensures var m := CoreMapping("snes", DefaultCores[2]);
      m.isDefault && DefaultConfig(m.emulatorID, m.coreID) == DefaultEmulatorsByPlatform["snes"]
  {
    assert DefaultEmulators[2].supportedPlatforms[0] == "wii";
    assert DefaultCores[0].supportedPlatforms[0] == "nes";
    assert DefaultCores[2].supportedPlatforms[0] == "snes";
  }

  /** The default tables use separable names. */
  lemma DefaultsSeparable()
    ensures forall e :: e in DefaultEmulators ==> '_' !in e.id && forall p :: p in e.supportedPlatforms ==> '_' !in p
    ensures forall c :: c in DefaultCores ==>
      c.coreID != "" && '_' !in c.emulatorID && forall p :: p in c.supportedPlatforms ==> '_' !in p
  {
  }

  lemma SeededSeparable(st: Store)
    requires Separable(st)
    ensures Separable(Seeded(st))
  {
    DefaultsSeparable();
    var s1 := SeedEmulators(st, DefaultEmulators);
    SeededEmulatorsOrigin(st, DefaultEmulators);
    SeededCoresOrigin(s1, DefaultCores);
    forall x | x in s1.emulators ensures '_' !in x.id && forall p :: p in x.supportedPlatforms ==> '_' !in p {
      if x !in st.emulators {
        var e :| e in DefaultEmulators && SameColumns(x, e);
      }
    }
    var s2 := SeedCores(s1, DefaultCores);
    forall x | x in s2.cores
      ensures x.coreID != "" && '_' !in x.emulatorID && forall p :: p in x.supportedPlatforms ==> '_' !in p
    {
      if x !in s1.cores {
        var c :| c in DefaultCores && SameCoreColumns(x, c);
      }
    }
  }

  // ---------------------------------------------------------------------
  // Discovery

  /** The host probes discovery depends on. */
  datatype Probes = Probes(
    flatpakInstalled: string -> bool,  // `flatpak info <id>` succeeds
    onPath: string -> bool,            // exec.LookPath succeeds
    fileExists: string -> bool,        // os.Stat succeeds
    home: string)                      // $HOME

  /** checkFlatpakInstalled / checkNativeInstalled, chosen by type: a flatpak
      by its id, a native emulator by its executable path; an empty id or
      path, or any other type, is unavailable. */
  function ProbeEmulator(e: Emulator, probes: Probes): (r: bool)
    ensures r ==> e.etype == Flatpak || e.etype == Native
    ensures e.etype == Flatpak ==> (r <==> e.flatpakID != "" && probes.flatpakInstalled(e.flatpakID))
    ensures e.etype == Native ==> (r <==> e.executablePath != "" && probes.onPath(e.executablePath))
  {
    match e.etype
    case Flatpak => e.flatpakID != "" && probes.flatpakInstalled(e.flatpakID)
    case Native => e.executablePath != "" && probes.onPath(e.executablePath)
    case _ => false
  }

  /** The elements of the RetroArch cores directory below $HOME. */
  const CoresTail: seq<string> := [".var", "app", "org.libretro.RetroArch", "config", "retroarch", "cores"]

  /** $HOME/.var/app/org.libretro.RetroArch/config/retroarch/cores */
  function CoresDir(home: string): string {
    JoinPath([home] + CoresTail)
  }

  function CoreFilePath(home: string, coreID: string): string {
    JoinPath([CoresDir(home), coreID + ".so"])
  }

  /** The first emulator row with this id in a snapshot (getEmulatorByID). */
  function FindByID(emus: seq<Emulator>, id: string): (r: Option<Emulator>)
    ensures r.Some? ==> r.value in emus && r.value.id == id
    ensures r.None? ==> forall k :: 0 <= k < |emus| ==> emus[k].id != id
  {
    match IndexOfKey(emus, EmulatorKey, id)
    case Some(i) => Some(emus[i])
    case None => None
  }

  /** The probe result for one RetroArch core: its library file exists. */
  function ProbeCore(c: EmulatorCore, probes: Probes): bool {
    probes.fileExists(CoreFilePath(probes.home, c.coreID))
  }

  /** The ids of the emulators whose probe disagrees with the stored
      availability, in order. */
  function ChangedEmulators(emus: seq<Emulator>, probes: Probes): seq<string>
    decreases |emus|
  {
    if emus == [] then []
    else
      var e := emus[|emus| - 1];
      ChangedEmulators(emus[..|emus| - 1], probes) + (if ProbeEmulator(e, probes) != e.isAvailable then [e.id] else [])
  }

  lemma {:induction false} ChangedEmulatorsMembers(emus: seq<Emulator>, probes: Probes, id: string)
    ensures id in ChangedEmulators(emus, probes) <==>
      exists k :: 0 <= k < |emus| && emus[k].id == id && ProbeEmulator(emus[k], probes) != emus[k].isAvailable
    decreases |emus|
  {
    if emus != [] {
      var n := |emus| - 1;
      var init := emus[..n];
      ChangedEmulatorsMembers(init, probes, id);
      if id in ChangedEmulators(init, probes) {
        var k :| 0 <= k < |init| && init[k].id == id && ProbeEmulator(init[k], probes) != init[k].isAvailable;
        assert emus[k] == init[k];
      }
      if exists k :: 0 <= k < |emus| && emus[k].id == id && ProbeEmulator(emus[k], probes) != emus[k].isAvailable {
        var k :| 0 <= k < |emus| && emus[k].id == id && ProbeEmulator(emus[k], probes) != emus[k].isAvailable;
        if k < n {
          assert init[k] == emus[k];
        }
      }
    }
  }

  /** The ids of the RetroArch cores whose probe disagrees with the stored
      availability, in order. */
  function ChangedCores(cores: seq<EmulatorCore>, probes: Probes): seq<string>
    decreases |cores|
  {
    if cores == [] then []
    else
      var c := cores[|cores| - 1];
      ChangedCores(cores[..|cores| - 1], probes) +
        (if c.emulatorID == RetroArch && ProbeCore(c, probes) != c.isAvailable then [c.id] else [])
  }

  lemma {:induction false} ChangedCoresMembers(cores: seq<EmulatorCore>, probes: Probes, id: string)
    ensures id in ChangedCores(cores, probes) <==>
      exists k :: 0 <= k < |cores| && cores[k].id == id && cores[k].emulatorID == RetroArch &&
        ProbeCore(cores[k], probes) != cores[k].isAvailable
    decreases |cores|
  {
    if cores != [] {
      var n := |cores| - 1;
      var init := cores[..n];
      ChangedCoresMembers(init, probes, id);
      if id in ChangedCores(init, probes) {
        var k :| 0 <= k < |init| && init[k].id == id && init[k].emulatorID == RetroArch &&
          ProbeCore(init[k], probes) != init[k].isAvailable;
        assert cores[k] == init[k];
      }
      if exists k :: 0 <= k < |cores| && cores[k].id == id && cores[k].emulatorID == RetroArch &&
          ProbeCore(cores[k], probes) != cores[k].isAvailable {
        var k :| 0 <= k < |cores| && cores[k].id == id && cores[k].emulatorID == RetroArch &&
          ProbeCore(cores[k], probes) != cores[k].isAvailable;
        if k < n {
          assert init[k] == cores[k];
        }
      }
    }
  }

  /** The emulator rows with the first i probed. */
  function ProbedEmulators(emus: seq<Emulator>, probes: Probes, i: nat): (r: seq<Emulator>)
    ensures |r| == |emus|
  {
    seq(|emus|, k requires 0 <= k < |emus| =>
      if k < i then emus[k].(isAvailable := ProbeEmulator(emus[k], probes)) else emus[k])
  }

  /** Probing the next emulator, and writing only a changed availability,
      probes one more row. */
  lemma DiscoverEmulatorStep(st: Store, probes: Probes, r: Store, i: nat)
    requires Valid(st) && i < |st.emulators|
    requires r == st.(emulators := ProbedEmulators(st.emulators, probes, i))
    ensures var e := st.emulators[i];
      var available := ProbeEmulator(e, probes);
      (if available != e.isAvailable then UpdateEmulatorAvailability(r, e.id, available) else r) ==
        st.(emulators := ProbedEmulators(st.emulators, probes, i + 1))
  {
    var e := st.emulators[i];
    var available := ProbeEmulator(e, probes);
    var next := ProbedEmulators(st.emulators, probes, i + 1);
    if available != e.isAvailable {
      var u := UpdateEmulatorAvailability(r, e.id, available);
      forall k | 0 <= k < |next|
        ensures u.emulators[k] == next[k]
      {
        if k != i {
          assert st.emulators[k].id != e.id;
        }
      }
      assert u.emulators == next;
    } else {
      assert r.emulators == next;
    }
  }

  /** The emulator half of DiscoverAvailable: probe every emulator and write
      its availability back only when it changed. Returns the ids written. */
  method DiscoverEmulators(st: Store, probes: Probes) returns (r: Store, writes: seq<string>)
    requires Valid(st)
    ensures Valid(r)
    ensures r.cores == st.cores && r.mappings == st.mappings && r.settings == st.settings && r.art == st.art
    ensures |r.emulators| == |st.emulators|
    ensures forall k :: 0 <= k < |st.emulators| ==>
      r.emulators[k] == st.emulators[k].(isAvailable := ProbeEmulator(st.emulators[k], probes))
    ensures writes == ChangedEmulators(st.emulators, probes)
    ensures forall id :: id in writes <==>
      exists k :: 0 <= k < |st.emulators| && st.emulators[k].id == id && ProbeEmulator(st.emulators[k], probes) != st.emulators[k].isAvailable
  {
    r := st;
    writes := [];
    var i := 0;
    assert r.emulators == ProbedEmulators(st.emulators, probes, 0);
    while i < |st.emulators|
      invariant 0 <= i <= |st.emulators|
      invariant Valid(r)
      invariant r == st.(emulators := ProbedEmulators(st.emulators, probes, i))
      invariant writes == ChangedEmulators(st.emulators[..i], probes)
    {
      var e := st.emulators[i];
      var available := ProbeEmulator(e, probes);
      DiscoverEmulatorStep(st, probes, r, i);
      assert st.emulators[..i + 1][..i] == st.emulators[..i];
      if available != e.isAvailable {
        r := UpdateEmulatorAvailability(r, e.id, available);
        writes := writes + [e.id];
      }
      i := i + 1;
    }
    assert st.emulators[..i] == st.emulators;
    forall id {
      ChangedEmulatorsMembers(st.emulators, probes, id);
    }
  }

  /** The core rows with the first j probed, RetroArch's only. */
  function ProbedCores(cores: seq<EmulatorCore>, probes: Probes, j: nat): (r: seq<EmulatorCore>)
    ensures |r| == |cores|
  {
    seq(|cores|, k requires 0 <= k < |cores| =>
      if k < j && cores[k].emulatorID == RetroArch then cores[k].(isAvailable := ProbeCore(cores[k], probes)) else cores[k])
  }

  /** Probing the next core, and writing only a changed availability of a
      RetroArch core, probes one more row. */
  lemma DiscoverCoreStep(st: Store, probes: Probes, r: Store, j: nat)
    requires Valid(st) && j < |st.cores|
    requires r == st.(cores := ProbedCores(st.cores, probes, j))
    ensures var c := st.cores[j];
      var available := ProbeCore(c, probes);
      (if c.emulatorID == RetroArch && available != c.isAvailable then UpdateCoreAvailability(r, c.id, available) else r) ==
        st.(cores := ProbedCores(st.cores, probes, j + 1))
  {
    var c := st.cores[j];
    var available := ProbeCore(c, probes);
    var next := ProbedCores(st.cores, probes, j + 1);
    if c.emulatorID == RetroArch && available != c.isAvailable {
      var u := UpdateCoreAvailability(r, c.id, available);
      forall k | 0 <= k < |next|
        ensures u.cores[k] == next[k]
      {
        if k != j {
          assert st.cores[k].id != c.id;
        }
      }
      assert u.cores == next;
    } else {
      assert r.cores == next;
    }
  }

  /** The core half: probe every RetroArch core's library file and write
      its availability back only when it changed. Returns the ids written. */
  method DiscoverRetroArchCores(st: Store, probes: Probes) returns (r: Store, writes: seq<string>)
    requires Valid(st)
    ensures Valid(r)
    ensures r.emulators == st.emulators && r.mappings == st.mappings && r.settings == st.settings && r.art == st.art
    ensures |r.cores| == |st.cores|
    ensures forall k :: 0 <= k < |st.cores| ==>
      r.cores[k] == if st.cores[k].emulatorID == RetroArch
                    then st.cores[k].(isAvailable := ProbeCore(st.cores[k], probes))
                    else st.cores[k]
    ensures writes == ChangedCores(st.cores, probes)
    ensures forall id :: id in writes <==>
      exists k :: 0 <= k < |st.cores| && st.cores[k].id == id && st.cores[k].emulatorID == RetroArch &&
        ProbeCore(st.cores[k], probes) != st.cores[k].isAvailable
  {
    r := st;
    writes := [];
    var j := 0;
    assert r.cores == ProbedCores(st.cores, probes, 0);
    while j < |st.cores|
      invariant 0 <= j <= |st.cores|
      invariant Valid(r)
      invariant r == st.(cores := ProbedCores(st.cores, probes, j))
      invariant writes == ChangedCores(st.cores[..j], probes)
    {
      var c := st.cores[j];
      DiscoverCoreStep(st, probes, r, j);
      assert st.cores[..j + 1][..j] == st.cores[..j];
      if c.emulatorID == RetroArch {
        var available := ProbeCore(c, probes);
        if available != c.isAvailable {
          r := UpdateCoreAvailability(r, c.id, available);
          writes := writes + [c.id];
        }
      }
      j := j + 1;
    }
    assert st.cores[..j] == st.cores;
    forall id {
      ChangedCoresMembers(st.cores, probes, id);
    }
  }



  /** DiscoverAvailable: the emulator pass, then the core pass when the
      RetroArch row of the updated snapshot is available. */
  method DiscoverAvailable(st: Store, probes: Probes) returns (r: Store, emulatorWrites: seq<string>, coreWrites: seq<string>)
    requires Valid(st)
    ensures Valid(r)
    ensures r.mappings == st.mappings && r.settings == st.settings && r.art == st.art
    ensures |r.emulators| == |st.emulators| && |r.cores| == |st.cores|
    ensures forall k :: 0 <= k < |st.emulators| ==>
      r.emulators[k] == st.emulators[k].(isAvailable := ProbeEmulator(st.emulators[k], probes))
    ensures var ra := FindByID(r.emulators, RetroArch);
      (ra.Some? && ra.value.isAvailable) ==> forall k :: 0 <= k < |st.cores| ==>
        r.cores[k] == if st.cores[k].emulatorID == RetroArch
                      then st.cores[k].(isAvailable := ProbeCore(st.cores[k], probes))
                      else st.cores[k]
    ensures var ra := FindByID(r.emulators, RetroArch);
      !(ra.Some? && ra.value.isAvailable) ==> r.cores == st.cores && coreWrites == []
  {
    r, emulatorWrites := DiscoverEmulators(st, probes);
    coreWrites := [];
    var ra := FindByID(r.emulators, RetroArch);
    if ra.Some? && ra.value.isAvailable {
      r, coreWrites := DiscoverRetroArchCores(r, probes);
    }
  }

  // ---------------------------------------------------------------------
  // Resolution

  /** getEmulatorAndCore: the emulator, or "emulator not found"; a core id
      that names no core of that emulator yields no core rather than an
      error. */
  function GetEmulatorAndCore(st: Store, emulatorID: string, coreID: string): (r: Result<Pair>)
    ensures r.Err? <==> GetEmulator(st, emulatorID).Err?
    ensures r.Err? ==> r.msg == "emulator not found: " + emulatorID
    ensures r.Ok? ==> r.value.emulator == GetEmulator(st, emulatorID).value
    ensures r.Ok? ==> (r.value.core.Some? <==> coreID != "" && GetCore(st, emulatorID, coreID).Ok?)
    ensures r.Ok? && r.value.core.Some? ==> r.value.core.value == GetCore(st, emulatorID, coreID).value
  {
    match GetEmulator(st, emulatorID)
    case Err(_) => Err("emulator not found: " + emulatorID)
    case Ok(e) =>
      var core := if coreID != "" then GetCore(st, emulatorID, coreID).ToOption() else None;
      Ok(Pair(e, core))
  }

  /** The override is used only when it resolved and its emulator, and its
      core if any, are available. */
  predicate OverrideUsable(o: Option<Result<Pair>>) {
    o.Some? && o.value.Ok? && PairAvailable(o.value.value)
  }

  /** The three-stage fallback of ResolveEmulator, over the results of its
      three lookups: the instance override, the available platform default,
      and the list of available pairs. */
  function ResolveWith(platform: string, override: Option<Result<Pair>>, platformDefault: Result<Pair>,
                       fallback: Result<seq<Pair>>): (r: Result<Pair>)
    ensures OverrideUsable(override) ==> r == override.value
    ensures !OverrideUsable(override) && platformDefault.Ok? ==> r == platformDefault
    ensures !OverrideUsable(override) && platformDefault.Err? && fallback.Ok? && fallback.value != [] ==>
      r == Ok(fallback.value[0])
    ensures !OverrideUsable(override) && platformDefault.Err? && fallback.Ok? && fallback.value == [] ==>
      r == Err("no available emulator for platform " + platform)
    ensures !OverrideUsable(override) && platformDefault.Err? && fallback.Err? ==>
      r == Err("no emulator available for platform " + platform + ": " + fallback.msg)
  {
    if OverrideUsable(override) then override.value
    else if platformDefault.Ok? then platformDefault
    else if fallback.Err? then Err("no emulator available for platform " + platform + ": " + fallback.msg)
    else if fallback.value != [] then Ok(fallback.value[0])
    else Err("no available emulator for platform " + platform)
  }

  /** The override lookup: None when the instance has no settings row. */
  function OverrideFor(st: Store, instanceID: string): Option<Result<Pair>> {
    match GetInstanceEmulatorSettings(st, instanceID)
    case Ok(s) => Some(GetEmulatorAndCore(st, s.emulatorID, s.coreID))
    case Err(_) => None
  }

  /** ResolveEmulator against the store. */
  function ResolveEmulator(st: Store, instance: GameInstance): (r: Result<Pair>)
    ensures r.Ok? ==> PairAvailable(r.value)
    ensures r.Err? <==> !OverrideUsable(OverrideFor(st, instance.id)) && GetAvailableEmulatorsForPlatform(st, instance.platform) == []
  {
    DefaultIsAvailablePair(st, instance.platform);
    ResolveWith(instance.platform, OverrideFor(st, instance.id),
                GetDefaultEmulatorForPlatform(st, instance.platform, true),
                Ok(GetAvailableEmulatorsForPlatform(st, instance.platform)))
  }

  /** The available default is itself one of the available pairs, so stage 2
      never succeeds where stage 3 would fail. */
  lemma DefaultIsAvailablePair(st: Store, platform: string)
    ensures GetDefaultEmulatorForPlatform(st, platform, true).Ok? ==>
      GetDefaultEmulatorForPlatform(st, platform, true).value in GetAvailableEmulatorsForPlatform(st, platform)
  {
    var def := GetDefaultEmulatorForPlatform(st, platform, true);
    if def.Ok? {
      var row :| row in JoinRows(st, platform) && row.pair == def.value && DefaultSelected(row, true);
      assert row.pair in GetAvailableEmulatorsForPlatform(st, platform);
    }
  }

  /** A usable override always wins, even over an available platform
      default; an override naming an unknown core resolves to its emulator
      alone. */
  lemma OverrideWins(st: Store, instance: GameInstance)
    requires instance.id in st.settings
    requires GetEmulator(st, st.settings[instance.id].emulatorID).Ok?
    requires GetEmulator(st, st.settings[instance.id].emulatorID).value.isAvailable
    requires GetCore(st, st.settings[instance.id].emulatorID, st.settings[instance.id].coreID).Err?
    ensures ResolveEmulator(st, instance) == Ok(Pair(GetEmulator(st, st.settings[instance.id].emulatorID).value, None))
  {
    var s := st.settings[instance.id];
    var o := GetEmulatorAndCore(st, s.emulatorID, s.coreID);
    assert OverrideFor(st, instance.id) == Some(o);
    assert o.value.core.None?;
  }
}
