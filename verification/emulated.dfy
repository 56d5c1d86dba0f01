/** The emulated (ROM) game source: which files count as ROMs, how a ROM
    file becomes a game instance with derived ids and name, the per-platform
    emulator availability cache, and the guards of AddManualROM and Launch.
    File system access, hashing and process start are inputs or left out. */
module Emulated {
  import opened Wrappers
  import opened Models
  import opened Text
  import opened Seqs
  import opened Store
  import EmulatorService
  import Command

  const SourceName := "emulated"

  datatype PlatformConfig = PlatformConfig(extensions: seq<string>, displayName: string, artTypes: seq<string>)

  const BoxartScreenshot: seq<string> := ["boxart", "screenshot"]

  /** The ROM extensions of every supported platform. */
  const DefaultPlatformConfigs: map<string, PlatformConfig> := map[
    "wii" := PlatformConfig([".wbfs", ".iso", ".ciso", ".gcz"], "Nintendo Wii", BoxartScreenshot),
    "gamecube" := PlatformConfig([".iso", ".ciso", ".gcz"], "Nintendo GameCube", BoxartScreenshot),
    "snes" := PlatformConfig([".sfc", ".smc", ".fig", ".zip"], "Super Nintendo", BoxartScreenshot),
    "nes" := PlatformConfig([".nes", ".zip", ".7z"], "Nintendo Entertainment System", BoxartScreenshot),
    "n64" := PlatformConfig([".z64", ".n64", ".v64"], "Nintendo 64", BoxartScreenshot),
    "ps2" := PlatformConfig([".iso", ".bin", ".img"], "PlayStation 2", BoxartScreenshot),
    "ps1" := PlatformConfig([".iso", ".bin", ".cue"], "PlayStation", BoxartScreenshot)]

  /** The source's state: the platform table, the emulator service (its
      store, when one has been injected) and the availability cache, which
      stays nil until first populated. */
  datatype Source = Source(
    basePath: string,
    platforms: map<string, PlatformConfig>,
    service: Option<Store>,
    cache: Option<map<string, bool>>)

  // ---------------------------------------------------------------------
  // ROM files

  /** Whether some listed extension matches `ext` ignoring ASCII case. */
  function AnyExtension(exts: seq<string>, ext: string): (r: bool)
    ensures r <==> exists k :: 0 <= k < |exts| && Lower(exts[k]) == ext
  {
    if exts == [] then false
    else if ext == Lower(exts[0]) then true
    else
      var rest := AnyExtension(exts[1..], ext);
      assert forall k :: 1 <= k < |exts| ==> exts[k] == exts[1..][k - 1];
      rest
  }

  /** isROMFile: the platform is configured and the lower-cased extension of
      the path equals a lower-cased listed extension. */
  function IsROMFile(s: Source, path: string, platform: string): (r: bool)
    ensures r <==> platform in s.platforms &&
                   exists k :: 0 <= k < |s.platforms[platform].extensions| &&
                               Lower(s.platforms[platform].extensions[k]) == Lower(Ext(path))
  {
    platform in s.platforms && AnyExtension(s.platforms[platform].extensions, Lower(Ext(path)))
  }

  /** Extension case does not matter. */
  lemma IsROMFileIgnoresCase(s: Source, a: string, b: string, platform: string)
    requires Lower(Ext(a)) == Lower(Ext(b))
    ensures IsROMFile(s, a, platform) == IsROMFile(s, b, platform)
  {
  }

  // ---------------------------------------------------------------------
  // Names and ids

  /** '_' and '-' read as spaces. */
  function SpaceFor(c: char): char {
    if c == '_' || c == '-' then ' ' else c
  }

  /** A character parseGameName drops at the ends of a name. */
  predicate Blank(c: char) {
    IsSpace(c) || c == '_' || c == '-'
  }

  function Spaced(s: string): (r: string)
    ensures |r| == |s|
    ensures forall k :: 0 <= k < |s| ==> r[k] == SpaceFor(s[k])
  {
    ReplaceChar(ReplaceChar(s, '_', ' '), '-', ' ')
  }

  /** `r` is `base[i..i + |r|]` with '_' and '-' read as spaces, and every
      character of `base` around it is blank. */
  predicate NameWithin(base: string, r: string, i: int) {
    0 <= i && i + |r| <= |base| &&
    (forall k :: 0 <= k < |r| ==> r[k] == SpaceFor(base[i + k])) &&
    (forall k :: 0 <= k < i ==> Blank(base[k])) &&
    (forall k :: i + |r| <= k < |base| ==> Blank(base[k]))
  }

  /** parseGameName: the file name without its final extension, with '_'
      and '-' read as spaces and the blanks at both ends cut off
      (ParseGameNameWithin). */
  function ParseGameName(filename: string): (r: string)
    ensures '_' !in r && '-' !in r
    ensures r == [] || (!IsSpace(r[0]) && !IsSpace(r[|r| - 1]))
  {
    TrimSpacedKeepsOut(Stem(filename));
    TrimSpace(Spaced(Stem(filename)))
  }

  /** The file name without its final extension. */
  function Stem(filename: string): string {
    TrimSuffix(filename, Ext(filename))
  }

  lemma TrimSpacedKeepsOut(base: string)
    ensures '_' !in TrimSpace(Spaced(base)) && '-' !in TrimSpace(Spaced(base))
  {
    var spaced := Spaced(base);
    assert forall k :: 0 <= k < |spaced| ==> spaced[k] != '_' && spaced[k] != '-';
    TrimSpaceKeepsOut(spaced, '_');
    TrimSpaceKeepsOut(spaced, '-');
  }

  /** The game name is the stem of the file name, '_' and '-' read as
      spaces, with only blanks around it. */
  lemma {:induction false} ParseGameNameWithin(filename: string)
    ensures exists i :: NameWithin(Stem(filename), ParseGameName(filename), i)
  {
    var base := Stem(filename);
    var r := ParseGameName(filename);
    var i := |Spaced(base)| - |TrimLeftSpace(Spaced(base))|;
    assert r == TrimSpace(Spaced(base));
    SpacedTrimWithin(base, r, i);
    assert NameWithin(base, r, i);
  }

  /** Trimming the spaced stem leaves a name within the stem. */
  lemma SpacedTrimWithin(base: string, r: string, i: int)
    requires Trimmed(Spaced(base), r, i)
    ensures NameWithin(base, r, i)
  {
    var spaced := Spaced(base);
    forall k | 0 <= k < i ensures Blank(base[k]) {
      assert IsSpace(spaced[k]);
    }
    forall k | i + |r| <= k < |base| ensures Blank(base[k]) {
      assert IsSpace(spaced[k]);
    }
  }

  /** A stem without blanks is its own game name. */
  lemma ParseGameNamePlain(stem: string, ext: string)
    requires forall k :: 0 <= k < |stem| ==> !Blank(stem[k])
    requires Ext(stem + ext) == ext
    ensures ParseGameName(stem + ext) == stem
  {
    var r := ParseGameName(stem + ext);
    var base := TrimSuffix(stem + ext, ext);
    assert HasSuffix(stem + ext, ext) by { SuffixOfConcat(stem, ext); }
    assert base == stem;
    ParseGameNameWithin(stem + ext);
    var i :| NameWithin(stem, r, i);
    WithinPlain(stem, r, i);
  }

  /** A blank-free stem leaves no room around the name: the name is the stem. */
  lemma WithinPlain(base: string, r: string, i: int)
    requires forall k :: 0 <= k < |base| ==> !Blank(base[k])
    requires NameWithin(base, r, i)
    ensures r == base
  {
    if base != [] {
      assert !Blank(base[0]) && !Blank(base[|base| - 1]);
    }
    assert i == 0 && |r| == |base|;
    assert forall k :: 0 <= k < |r| ==> r[k] == base[k];
  }

  predicate IdChar(c: char) {
    c != ' ' && c != '/' && c != '\\'
  }

  /** One character of a sanitized string: lower-cased, and '_' where the
      lower-cased character is ' ', '/' or '\\'. */
  function IdCharFor(c: char): char {
    if IdChar(LowerChar(c)) then LowerChar(c) else '_'
  }

  /** sanitizeString: lower-cases and turns ' ', '/' and '\\' into '_'. */
  function Sanitize(s: string): (r: string)
    ensures |r| == |s|
    ensures forall k :: 0 <= k < |s| ==> r[k] == IdCharFor(s[k])
    ensures forall k :: 0 <= k < |r| ==> IdChar(r[k]) && r[k] == LowerChar(r[k])
  {
    var r := ReplaceChar(ReplaceChar(ReplaceChar(Lower(s), ' ', '_'), '/', '_'), '\\', '_');
    assert forall k :: 0 <= k < |r| ==> r[k] == IdCharFor(s[k]);
    r
  }

  lemma LowerCharIdempotent(c: char)
    ensures LowerChar(LowerChar(c)) == LowerChar(c)
  {
  }

  /** Sanitizing twice is sanitizing once. */
  lemma SanitizeIdempotent(s: string)
    ensures Sanitize(Sanitize(s)) == Sanitize(s)
  {
    var t := Sanitize(s);
    var u := Sanitize(t);
    forall k | 0 <= k < |u| ensures u[k] == t[k] {
      assert IdChar(t[k]) && t[k] == LowerChar(t[k]);
    }
  }

  /** generateGameID */
  function GameID(name: string, platform: string): (r: string)
    ensures HasPrefix(r, "game_" + platform + "_")
    ensures |r| == |"game_" + platform + "_"| + |name|
    ensures r[|"game_" + platform + "_"|..] == Sanitize(name)
  {
    var r := "game_" + platform + "_" + Sanitize(name);
    assert r[..|"game_" + platform + "_"|] == "game_" + platform + "_";
    r
  }

  /** Two names give the same game id on a platform exactly when they
      sanitize alike. */
  lemma GameIDCollides(a: string, b: string, platform: string)
    ensures GameID(a, platform) == GameID(b, platform) <==> Sanitize(a) == Sanitize(b)
  {
    var p := "game_" + platform + "_";
    if GameID(a, platform) == GameID(b, platform) {
      assert Sanitize(a) == GameID(a, platform)[|p|..];
      assert Sanitize(b) == GameID(b, platform)[|p|..];
    }
  }

  /** generateInstanceID: slicing the hash needs 16 characters. */
  function InstanceID(fileHash: string): (r: string)
    requires |fileHash| >= 16
    ensures |r| == 21 && r[..5] == "file_" && r[5..] == fileHash[..16]
  {
    "file_" + fileHash[..16]
  }

  // ---------------------------------------------------------------------
  // Availability cache

  /** What the service says on demand: some available pair exists. */
  predicate ServiceHasEmulator(st: Store, platform: string) {
    GetAvailableEmulatorsForPlatform(st, platform) != []
  }

  /** getEmulatorAvailabilityForPlatform */
  function Availability(s: Source, platform: string): (r: bool)
    ensures s.cache.Some? && platform in s.cache.value ==> r == s.cache.value[platform]
    ensures (s.cache.None? || platform !in s.cache.value) ==>
      (r <==> s.service.Some? && ServiceHasEmulator(s.service.value, platform))
  {
    if s.cache.Some? && platform in s.cache.value then s.cache.value[platform]
    else s.service.Some? && ServiceHasEmulator(s.service.value, platform)
  }

  /** What populate stores for one platform: an available default, or else
      any available pair. */
  predicate PopulatedValue(st: Store, platform: string) {
    GetDefaultEmulatorForPlatform(st, platform, true).Ok? || ServiceHasEmulator(st, platform)
  }

  /** populateEmulatorAvailabilityCache */
  function PopulateCache(s: Source): (r: Source)
    ensures s.service.None? ==> r == s
    ensures s.service.Some? ==> r.cache.Some? && r.(cache := s.cache) == s
    ensures s.service.Some? ==> forall p :: p in s.platforms ==>
      p in r.cache.value && r.cache.value[p] == PopulatedValue(s.service.value, p)
    ensures s.service.Some? && s.cache.Some? ==> forall p :: p in s.cache.value && p !in s.platforms ==>
      p in r.cache.value && r.cache.value[p] == s.cache.value[p]
    ensures s.service.Some? ==> r.cache.value.Keys == s.platforms.Keys + (if s.cache.Some? then s.cache.value.Keys else {})
  {
    if s.service.None? then s
    else
      var st := s.service.value;
      var before: map<string, bool> := if s.cache.Some? then s.cache.value else map[];
      var after := map p | p in before.Keys + s.platforms.Keys :: if p in s.platforms then PopulatedValue(st, p) else before[p];
      s.(cache := Some(after))
  }

  /** The cached value agrees with the on-demand answer: an available
      default is one of the available pairs. */
  lemma PopulateAgreesOnDemand(s: Source, p: string)
    requires s.service.Some? && p in s.platforms
    ensures Availability(PopulateCache(s), p) == ServiceHasEmulator(s.service.value, p)
  {
    EmulatorService.DefaultIsAvailablePair(s.service.value, p);
  }

  /** A cached false wins over a service that now has an emulator. */
  lemma CachedFalseWins(s: Source, p: string)
    requires s.cache.Some? && p in s.cache.value && !s.cache.value[p]
    ensures !Availability(s, p)
  {
  }

  /** SetEmulatorService: injects the service and populates the cache. */
  function SetEmulatorService(s: Source, st: Store): (r: Source)
    ensures r.service == Some(st) && r.cache.Some?
    ensures forall p :: p in s.platforms ==> Availability(r, p) == ServiceHasEmulator(st, p)
  {
    var r := PopulateCache(s.(service := Some(st)));
    forall p | p in s.platforms ensures Availability(r, p) == ServiceHasEmulator(st, p) {
      PopulateAgreesOnDemand(s.(service := Some(st)), p);
    }
    r
  }

  // ---------------------------------------------------------------------
  // Instances

  /** What os.Stat reports about a file. */
  datatype FileInfo = FileInfo(name: string, size: int)

  /** createInstance; the hash of the file's first megabyte is an input. */
  function CreateInstance(s: Source, path: string, info: FileInfo, platform: string, hash: Result<string>): (r: Result<GameInstance>)
    requires hash.Ok? ==> |hash.value| >= 16
    ensures hash.Err? ==> r == Err("failed to hash file: " + hash.msg)
    ensures hash.Ok? ==> r.Ok?
    ensures r.Ok? ==> var i := r.value;
      i.id == InstanceID(hash.value) && i.gameID == GameID(ParseGameName(info.name), platform) &&
      i.source == SourceName && i.platform == platform && i.installed &&
      i.installPath == path && i.path == path && i.filename == info.name && i.fileSize == info.size &&
      i.sourceID == hash.value && i.fileHash == hash.value &&
      i.customMetadata == map["emulator.available" := VBool(Availability(s, platform))] &&
      i.sourceData == map["displayName" := VStr(ParseGameName(info.name))]
  {
    match hash
    case Err(m) => Err("failed to hash file: " + m)
    case Ok(h) =>
      var name := ParseGameName(info.name);
      Ok(GameInstance(InstanceID(h), GameID(name, platform), SourceName, platform, h, path, info.name, info.size, h,
                      true, path, NoStatus,
                      map["emulator.available" := VBool(Availability(s, platform))],
                      map["displayName" := VStr(name)], 0))
  }

  /** AddManualROM: the platform must be configured, the file must exist and
      its extension must be a ROM extension of that platform. */
  function AddManualROM(s: Source, path: string, platform: string, stat: Result<FileInfo>, hash: Result<string>): (r: Result<GameInstance>)
    requires hash.Ok? ==> |hash.value| >= 16
    ensures platform !in s.platforms ==> r == Err("unknown platform: " + platform)
    ensures platform in s.platforms && stat.Err? ==> r == Err("failed to stat file: " + stat.msg)
    ensures platform in s.platforms && stat.Ok? && !IsROMFile(s, path, platform) ==>
      r == Err("file is not a valid ROM for platform " + platform)
    ensures r.Ok? ==> IsROMFile(s, path, platform) && stat.Ok? && hash.Ok?
    ensures platform in s.platforms && stat.Ok? && IsROMFile(s, path, platform) ==>
      r == CreateInstance(s, path, stat.value, platform, hash)
  {
    if platform !in s.platforms then Err("unknown platform: " + platform)
    else if stat.Err? then Err("failed to stat file: " + stat.msg)
    else if !IsROMFile(s, path, platform) then Err("file is not a valid ROM for platform " + platform)
    else CreateInstance(s, path, stat.value, platform, hash)
  }

  /** The custom arguments stored for an instance, or none. */
  function InstanceArgs(st: Store, instanceID: string): string {
    match GetInstanceEmulatorSettings(st, instanceID)
    case Ok(row) => row.customArgs
    case Err(_) => ""
  }

  /** Launch up to the process start: the argument vector it would run. */
  function Launch(s: Source, instance: GameInstance, home: string): (r: Result<seq<string>>)
    ensures s.service.None? ==> r == Err("emulator service not configured")
    ensures s.service.Some? && EmulatorService.ResolveEmulator(s.service.value, instance).Err? ==>
      r == Err("no emulator available for " + instance.platform + ": " + EmulatorService.ResolveEmulator(s.service.value, instance).msg)
    ensures r.Ok? <==> s.service.Some? && EmulatorService.ResolveEmulator(s.service.value, instance).Ok?
    ensures r.Ok? ==> forall k :: 0 <= k < |r.value| ==> r.value[k] != []
    ensures r.Ok? ==> var pair := EmulatorService.ResolveEmulator(s.service.value, instance).value;
      r == Command.BuildCommand(Some(pair.emulator), pair.core, instance.path,
                                InstanceArgs(s.service.value, instance.id), home)
  {
    if s.service.None? then Err("emulator service not configured")
    else
      var st := s.service.value;
      match EmulatorService.ResolveEmulator(st, instance)
      case Err(m) => Err("no emulator available for " + instance.platform + ": " + m)
      case Ok(pair) =>
        var customArgs := InstanceArgs(st, instance.id);
        match Command.BuildCommand(Some(pair.emulator), pair.core, instance.path, customArgs, home)
        case Err(m) => Err("failed to build emulator command: " + m)
        case Ok(cmd) => Ok(cmd)
  }
}
