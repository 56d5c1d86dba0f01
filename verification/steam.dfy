/** The Steam game source: which files in `steamapps` are app manifests, how
    a parsed manifest becomes a game instance, where art comes from (local
    cache, then the Steam CDN), and how a game is launched through the
    `steam://` URL protocol. The VDF parser, the file system, the HTTP
    client and process start are inputs. */
module Steam {
  import opened Wrappers
  import opened Models
  import opened Text

  const SourceName := "steam"
  const ManifestPrefix := "appmanifest_"
  const IdPrefix := "steam_"

  // ---------------------------------------------------------------------
  // Initialisation

  datatype Config = Config(installPath: string, apiKey: string)

  datatype Source = Source(installPath: string, artCache: string, config: Config)

  const Empty := Source("", "", Config("", ""))

  /** The three Linux install locations, in probing order (the last one is
      the Flatpak install). */
  function LinuxCandidates(home: string): seq<string> {
    [ JoinPath([home, ".local", "share", "Steam"]),
      JoinPath([home, ".steam", "steam"]),
      JoinPath([home, ".var", "app", "com.valvesoftware.Steam", ".local", "share", "Steam"]) ]
  }

  function MacPath(home: string): string {
    JoinPath([home, "Library", "Application Support", "Steam"])
  }

  lemma PathsNonEmpty(home: string)
    ensures forall i :: 0 <= i < |LinuxCandidates(home)| ==> LinuxCandidates(home)[i] != ""
    ensures MacPath(home) != ""
  {
    JoinPathLast([home, ".local", "share"], "Steam");
    assert [home, ".local", "share"] + ["Steam"] == [home, ".local", "share", "Steam"];
    JoinPathLast([home, ".steam"], "steam");
    assert [home, ".steam"] + ["steam"] == [home, ".steam", "steam"];
    JoinPathLast([home, ".var", "app", "com.valvesoftware.Steam", ".local", "share"], "Steam");
    assert [home, ".var", "app", "com.valvesoftware.Steam", ".local", "share"] + ["Steam"]
        == [home, ".var", "app", "com.valvesoftware.Steam", ".local", "share", "Steam"];
    JoinPathLast([home, "Library", "Application Support"], "Steam");
    assert [home, "Library", "Application Support"] + ["Steam"] == [home, "Library", "Application Support", "Steam"];
  }

  /** The first candidate that exists, or the given error. */
  function FirstExisting(cands: seq<string>, present: string -> bool, none: string): (r: Result<string>)
    ensures r.Ok? ==> exists i :: 0 <= i < |cands| && cands[i] == r.value && present(r.value)
                        && forall j :: 0 <= j < i ==> !present(cands[j])
    ensures r.Err? <==> forall i :: 0 <= i < |cands| ==> !present(cands[i])
    ensures r.Err? ==> r.msg == none
    decreases |cands|
  {
    if cands == [] then Err(none)
    else if present(cands[0]) then Ok(cands[0])
    else
      var rest := FirstExisting(cands[1..], present, none);
      assert forall i :: 1 <= i < |cands| ==> cands[i] == cands[1..][i - 1];
      rest
  }

  /** detectSteamPath: probe the per-OS locations; Windows detection is not
      implemented and always fails. `present` answers os.Stat. */
  function DetectSteamPath(goos: string, home: string, present: string -> bool): (r: Result<string>)
    ensures goos == "linux" ==> r == FirstExisting(LinuxCandidates(home), present, "Steam not found on Linux")
    ensures goos == "windows" ==> r == Err("Windows Steam detection not yet implemented")
    ensures goos == "darwin" ==> (r.Ok? <==> present(MacPath(home))) && (r.Ok? ==> r.value == MacPath(home))
    ensures goos !in {"linux", "windows", "darwin"} ==> r == Err("unsupported platform: " + goos)
    ensures r.Ok? ==> r.value != ""
  {
    PathsNonEmpty(home);
    if goos == "linux" then FirstExisting(LinuxCandidates(home), present, "Steam not found on Linux")
    else if goos == "windows" then Err("Windows Steam detection not yet implemented")
    else if goos == "darwin" then
      (if present(MacPath(home)) then Ok(MacPath(home)) else Err("Steam not found on macOS"))
    else Err("unsupported platform: " + goos)
  }

  /** A non-empty string option from the configuration map. */
  function ConfigString(config: Option<Fields>, key: string): (r: string)
    ensures r != "" ==> config.Some? && key in config.value && config.value[key] == VStr(r)
    ensures config.Some? && key in config.value && config.value[key].VStr? ==> r == config.value[key].s
  {
    if config.Some? && key in config.value && config.value[key].VStr? then config.value[key].s else ""
  }

  function ArtCacheDir(home: string): string {
    JoinPath([home, ".local", "share", "gentro", "cache", "steam", "art"])
  }

  /** The install path Init settles on before checking it: a configured
      installPath, else the current one, else auto-detection, whose failure
      is wrapped. */
  function LocateSteam(s: Source, config: Option<Fields>, goos: string, home: string,
                       present: string -> bool): (r: Result<string>)
    ensures ConfigString(config, "installPath") != "" ==> r == Ok(ConfigString(config, "installPath"))
    ensures ConfigString(config, "installPath") == "" && s.installPath != "" ==> r == Ok(s.installPath)
    ensures ConfigString(config, "installPath") == "" && s.installPath == "" ==>
      (r.Ok? <==> DetectSteamPath(goos, home, present).Ok?) &&
      (r.Ok? ==> r == DetectSteamPath(goos, home, present)) &&
      (r.Err? ==> r.msg == "failed to detect Steam installation: " + DetectSteamPath(goos, home, present).msg)
  {
    var path := if ConfigString(config, "installPath") != "" then ConfigString(config, "installPath") else s.installPath;
    if path != "" then Ok(path)
    else match DetectSteamPath(goos, home, present)
      case Err(e) => Err("failed to detect Steam installation: " + e)
      case Ok(p) => Ok(p)
  }

  /** Init: a configured installPath or apiKey replaces the current one;
      without an install path Steam is auto-detected; the path must exist;
      the art cache lives under $HOME. `mkdir` is MkdirAll's error, if any. */
  function Init(s: Source, config: Option<Fields>, goos: string, home: string,
                present: string -> bool, mkdir: Option<string>): (r: Result<Source>)
    ensures r.Ok? ==> r.value.installPath != "" && present(r.value.installPath)
    ensures r.Ok? ==> r.value.artCache == ArtCacheDir(home)
    ensures r.Ok? && ConfigString(config, "installPath") != "" ==>
              r.value.installPath == ConfigString(config, "installPath")
    ensures r.Ok? && ConfigString(config, "installPath") == "" && s.installPath != "" ==>
              r.value.installPath == s.installPath
    ensures r.Ok? && ConfigString(config, "installPath") == "" && s.installPath == "" ==>
              DetectSteamPath(goos, home, present) == Ok(r.value.installPath)
    ensures r.Ok? ==> (r.value.config.apiKey ==
              if ConfigString(config, "apiKey") != "" then ConfigString(config, "apiKey") else s.config.apiKey)
    ensures mkdir.Some? ==> r.Err?
    ensures var found := LocateSteam(s, config, goos, home, present);
      && (r.Ok? <==> found.Ok? && present(found.value) && mkdir.None?)
      && (found.Err? ==> r == Err(found.msg))
      && (found.Ok? && !present(found.value) ==> r == Err("Steam not found at " + found.value))
      && (found.Ok? && present(found.value) && mkdir.Some? ==>
            r == Err("failed to create art cache path: " + mkdir.value))
      && (r.Ok? ==> r.value.installPath == found.value)
    ensures r.Ok? ==> r.value.config == s.config.(apiKey := r.value.config.apiKey)
  {
    var key := if ConfigString(config, "apiKey") != "" then ConfigString(config, "apiKey") else s.config.apiKey;
    match LocateSteam(s, config, goos, home, present)
    case Err(e) => Err(e)
    case Ok(p) =>
      if !present(p) then Err("Steam not found at " + p)
      else if mkdir.Some? then Err("failed to create art cache path: " + mkdir.value)
      else Ok(Source(p, ArtCacheDir(home), s.config.(apiKey := key)))
  }

  // ---------------------------------------------------------------------
  // Manifest file names

  /** isAppManifest: the extension is ".acf", the name is longer than 12
      characters and it starts with "appmanifest_". */
  function IsAppManifest(filename: string): (r: bool)
    ensures r ==> HasPrefix(filename, ManifestPrefix) && HasSuffix(filename, ".acf")
  {
    Ext(filename) == ".acf" && |filename| > 12 && filename[..12] == ManifestPrefix
  }

  lemma ExtAcf(stem: string)
    ensures Ext(stem + ".acf") == ".acf"
  {
    var s := stem + ".acf";
    assert (stem + ".")[|stem|] == '.';
    assert Ext(stem + ".") == ".";
    assert (stem + ".a")[..|stem| + 1] == stem + ".";
    assert Ext(stem + ".a") == ".a";
    assert (stem + ".ac")[..|stem| + 2] == stem + ".a";
    assert Ext(stem + ".ac") == ".ac";
    assert s[..|s| - 1] == stem + ".ac";
  }

  /** The manifest names are exactly "appmanifest_<id>.acf", for any id: the
      length test never excludes a name the other two tests accept. */
  lemma ManifestNames(filename: string)
    ensures IsAppManifest(filename) <==> exists id :: filename == ManifestPrefix + id + ".acf"
  {
    if IsAppManifest(filename) {
      var n := |filename|;
      var id := filename[12..n - 4];
      assert filename == ManifestPrefix + id + ".acf";
    }
    if exists id :: filename == ManifestPrefix + id + ".acf" {
      var id :| filename == ManifestPrefix + id + ".acf";
      ExtAcf(ManifestPrefix + id);
      assert filename[..12] == ManifestPrefix;
    }
  }

  // ---------------------------------------------------------------------
  // Value coercion

  /** getString: a string value as it is, a nested map through Go's "%v"
      formatting (an input here), and "" for a missing key or any other
      type. */
  function GetString(m: Fields, key: string, formatMap: Fields -> string): (r: string)
    ensures key !in m ==> r == ""
    ensures key in m && m[key].VStr? ==> r == m[key].s
    ensures key in m && m[key].VMap? ==> r == formatMap(m[key].m)
    ensures key in m && !m[key].VStr? && !m[key].VMap? ==> r == ""
  {
    if key !in m then ""
    else match m[key]
      case VStr(s) => s
      case VMap(sub) => formatMap(sub)
      case _ => ""
  }

  /** getInt64: a base-10 string is parsed (0 when it does not parse as an
      int64), an integer passes through, anything else or a missing key is 0. */
  function GetInt64(m: Fields, key: string): (r: int)
    ensures key !in m ==> r == 0
    ensures key in m && m[key].VStr? && ParseInt64(m[key].s).Some? ==> r == ParseInt64(m[key].s).value
    ensures key in m && m[key].VStr? && ParseInt64(m[key].s).None? ==> r == 0
    ensures key in m && m[key].VInt? ==> r == m[key].i
    ensures key in m && !m[key].VStr? && !m[key].VInt? ==> r == 0
    ensures !(key in m && m[key].VInt?) ==> Int64Min <= r <= Int64Max
  {
    if key !in m then 0
    else match m[key]
      case VStr(s) => (match ParseInt64(s) case Some(i) => i case None => 0)
      case VInt(i) => i
      case _ => 0
  }

  /** A size the VDF file stores as decimal text is read back as written. */
  lemma GetInt64Decimal(m: Fields, key: string, i: int)
    requires Int64Min <= i <= Int64Max
    requires key in m && m[key] == VStr(IntToString(i))
    ensures GetInt64(m, key) == i
  {
    ParseFormatInt64(i);
  }

  // ---------------------------------------------------------------------
  // Manifest parsing

  /** What opening and parsing one manifest produced. `order` is the order
      in which Go's map iteration visits the root keys. */
  datatype ManifestRead =
    | OpenFailed(msg: string)
    | ParseFailed(msg: string)
    | Parsed(root: Fields, order: seq<string>)

  predicate IsMapAt(m: Fields, k: string) {
    k in m && m[k].VMap?
  }

  /** The first root value, in iteration order, that is itself a map (the
      "AppState" node). */
  function FindAppState(m: Fields, order: seq<string>): (r: Option<Fields>)
    ensures r.Some? ==> exists i :: 0 <= i < |order| && IsMapAt(m, order[i]) && m[order[i]].m == r.value
                          && forall j :: 0 <= j < i ==> !IsMapAt(m, order[j])
    ensures r.None? <==> forall i :: 0 <= i < |order| ==> !IsMapAt(m, order[i])
    decreases |order|
  {
    if order == [] then None
    else if IsMapAt(m, order[0]) then Some(m[order[0]].m)
    else
      var rest := FindAppState(m, order[1..]);
      assert forall i :: 1 <= i < |order| ==> order[i] == order[1..][i - 1];
      rest
  }

  /** When the root has a single map-valued entry, the iteration order does
      not matter: that entry is the app state. */
  lemma FindAppStateUnique(m: Fields, order: seq<string>, k: string)
    requires IsMapAt(m, k) && k in order
    requires forall k' :: IsMapAt(m, k') ==> k' == k
    ensures FindAppState(m, order) == Some(m[k].m)
  {
  }

  function AppStateOf(read: ManifestRead): Option<Fields> {
    if read.Parsed? then FindAppState(read.root, read.order) else None
  }

  /** SourceData: every app-state field, plus the game name as
      "displayName" when the name is non-empty. */
  function SourceDataOf(app: Fields, name: string): (sd: Fields)
    ensures name != "" ==> sd.Keys == app.Keys + {"displayName"} && sd["displayName"] == VStr(name)
    ensures name == "" ==> sd == app
    ensures forall k :: k in app && (k != "displayName" || name == "") ==> k in sd && sd[k] == app[k]
  {
    if name != "" then app["displayName" := VStr(name)] else app
  }

  function SteamAppsDir(installPath: string): string {
    JoinPath([installPath, "steamapps"])
  }

  /** ParseAppManifest: an open or parse failure, a root without a map node
      and an empty appid are errors; otherwise the instance is built from the
      app state. */
  function ParseAppManifest(path: string, read: ManifestRead, formatMap: Fields -> string): (r: Result<GameInstance>)
    ensures r.Ok? <==> AppStateOf(read).Some? && GetString(AppStateOf(read).value, "appid", formatMap) != ""
    ensures read.OpenFailed? ==> r == Err("failed to open appmanifest: " + read.msg)
    ensures read.ParseFailed? ==> r == Err("failed to parse VDF: " + read.msg)
    ensures read.Parsed? && AppStateOf(read).None? ==> r == Err("no AppState found in manifest")
    ensures r.Ok? ==>
      var app := AppStateOf(read).value;
      var appID := GetString(app, "appid", formatMap);
      var inst := r.value;
      && inst.id == IdPrefix + appID
      && inst.gameID == appID && inst.sourceID == appID
      && inst.source == SourceName && inst.platform == SourceName
      && inst.filename == GetString(app, "installdir", formatMap)
      && inst.installPath == JoinPath([Dir(path), "common", GetString(app, "installdir", formatMap)])
      && inst.fileSize == GetInt64(app, "SizeOnDisk")
      && inst.installed
      && inst.sourceData == SourceDataOf(app, GetString(app, "name", formatMap))
      && inst.customMetadata == map[]
  {
    match read
    case OpenFailed(msg) => Err("failed to open appmanifest: " + msg)
    case ParseFailed(msg) => Err("failed to parse VDF: " + msg)
    case Parsed(root, order) =>
      match FindAppState(root, order)
      case None => Err("no AppState found in manifest")
      case Some(app) =>
        var appID := GetString(app, "appid", formatMap);
        var name := GetString(app, "name", formatMap);
        var installDir := GetString(app, "installdir", formatMap);
        if appID == "" then Err("no appid found in manifest")
        else
          Ok(GameInstance(
            id := IdPrefix + appID,
            gameID := appID,
            source := SourceName,
            platform := SourceName,
            sourceID := appID,
            path := "",
            filename := installDir,
            fileSize := GetInt64(app, "SizeOnDisk"),
            fileHash := "",
            installed := true,
            installPath := JoinPath([Dir(path), "common", installDir]),
            metadataStatus := NoStatus,
            customMetadata := map[],
            sourceData := SourceDataOf(app, name),
            createdAt := 0))
  }

  // ---------------------------------------------------------------------
  // Listing installed games

  datatype DirEntry = DirEntry(name: string, isDir: bool)

  predicate IsManifestEntry(e: DirEntry) {
    !e.isDir && IsAppManifest(e.name)
  }

  function ParseEntry(dir: string, e: DirEntry, read: string -> ManifestRead, formatMap: Fields -> string): Result<GameInstance> {
    var path := JoinPath([dir, e.name]);
    ParseAppManifest(path, read(path), formatMap)
  }

  /** The loop of GetInstalledInstances: directories, non-manifests and
      manifests that fail to parse are skipped; the rest are kept in
      directory order. */
  function CollectManifests(dir: string, es: seq<DirEntry>, read: string -> ManifestRead,
                            formatMap: Fields -> string): (r: seq<GameInstance>)
    ensures |r| <= |es|
    decreases |es|
  {
    if es == [] then []
    else
      var rest := CollectManifests(dir, es[1..], read, formatMap);
      if IsManifestEntry(es[0]) && ParseEntry(dir, es[0], read, formatMap).Ok? then
        [ParseEntry(dir, es[0], read, formatMap).value] + rest
      else rest
  }

  /** Collecting keeps directory order: the instances of a split listing
      are those of its first part followed by those of its second, and a
      single entry gives its instance exactly when it is a manifest that
      parses (CollectOne). */
  lemma {:induction false} CollectAppend(dir: string, a: seq<DirEntry>, b: seq<DirEntry>,
                                         read: string -> ManifestRead, formatMap: Fields -> string)
    ensures CollectManifests(dir, a + b, read, formatMap) ==
            CollectManifests(dir, a, read, formatMap) + CollectManifests(dir, b, read, formatMap)
    decreases |a|
  {
    if a == [] {
      assert a + b == b;
    } else {
      assert (a + b)[0] == a[0];
      assert (a + b)[1..] == a[1..] + b;
      CollectAppend(dir, a[1..], b, read, formatMap);
    }
  }

  lemma CollectOne(dir: string, e: DirEntry, read: string -> ManifestRead, formatMap: Fields -> string)
    ensures IsManifestEntry(e) && ParseEntry(dir, e, read, formatMap).Ok? ==>
      CollectManifests(dir, [e], read, formatMap) == [ParseEntry(dir, e, read, formatMap).value]
    ensures !(IsManifestEntry(e) && ParseEntry(dir, e, read, formatMap).Ok?) ==>
      CollectManifests(dir, [e], read, formatMap) == []
  {
    assert [e][1..] == [];
  }

  /** Every collected instance comes from a manifest entry that parsed. */
  lemma {:induction false} CollectSound(dir: string, es: seq<DirEntry>, read: string -> ManifestRead,
                                        formatMap: Fields -> string, inst: GameInstance)
    requires inst in CollectManifests(dir, es, read, formatMap)
    ensures exists e :: e in es && IsManifestEntry(e) && ParseEntry(dir, e, read, formatMap) == Ok(inst)
    decreases |es|
  {
    var rest := CollectManifests(dir, es[1..], read, formatMap);
    if inst in rest {
      CollectSound(dir, es[1..], read, formatMap, inst);
      var e :| e in es[1..] && IsManifestEntry(e) && ParseEntry(dir, e, read, formatMap) == Ok(inst);
      assert e in es;
    } else {
      assert es[0] in es;
    }
  }

  /** Every manifest entry that parses contributes its instance. */
  lemma {:induction false} CollectComplete(dir: string, es: seq<DirEntry>, read: string -> ManifestRead,
                                           formatMap: Fields -> string, e: DirEntry)
    requires e in es && IsManifestEntry(e) && ParseEntry(dir, e, read, formatMap).Ok?
    ensures ParseEntry(dir, e, read, formatMap).value in CollectManifests(dir, es, read, formatMap)
    decreases |es|
  {
    if e != es[0] {
      assert e in es[1..];
      CollectComplete(dir, es[1..], read, formatMap, e);
    }
  }

  /** Every listed instance is an installed Steam game with a usable id. */
  lemma CollectedAreSteam(dir: string, es: seq<DirEntry>, read: string -> ManifestRead, formatMap: Fields -> string)
    ensures forall inst :: inst in CollectManifests(dir, es, read, formatMap) ==>
              inst.source == SourceName && inst.installed && HasPrefix(inst.id, IdPrefix) && inst.sourceID != ""
  {
    forall inst | inst in CollectManifests(dir, es, read, formatMap)
      ensures inst.source == SourceName && inst.installed && HasPrefix(inst.id, IdPrefix) && inst.sourceID != ""
    {
      CollectSound(dir, es, read, formatMap, inst);
      assert (IdPrefix + inst.sourceID)[..|IdPrefix|] == IdPrefix;
    }
  }

  /** GetInstalledInstances (and GetInstances, which delegates to it): no
      steamapps directory gives no games; an unreadable one is an error. */
  function GetInstalledInstances(s: Source, steamappsExists: bool, listing: Result<seq<DirEntry>>,
                                 read: string -> ManifestRead, formatMap: Fields -> string): (r: Result<seq<GameInstance>>)
    ensures !steamappsExists ==> r == Ok([])
    ensures r.Err? <==> steamappsExists && listing.Err?
    ensures r.Err? ==> r.msg == "failed to read steamapps directory: " + listing.msg
    ensures r.Ok? ==> forall inst :: inst in r.value ==>
              inst.source == SourceName && inst.installed && HasPrefix(inst.id, IdPrefix) && inst.sourceID != ""
    ensures r.Ok? && steamappsExists ==>
              r.value == CollectManifests(SteamAppsDir(s.installPath), listing.value, read, formatMap)
  {
    if !steamappsExists then Ok([])
    else match listing
      case Err(e) => Err("failed to read steamapps directory: " + e)
      case Ok(es) =>
        CollectedAreSteam(SteamAppsDir(s.installPath), es, read, formatMap);
        Ok(CollectManifests(SteamAppsDir(s.installPath), es, read, formatMap))
  }

  // ---------------------------------------------------------------------
  // Art

  /** The CDN file name for each known art type. */
  const CdnFiles: map<string, string> := map[
    "header" := "header.jpg",
    "library" := "library_600x900.jpg",
    "hero" := "library_hero.jpg",
    "logo" := "logo.png",
    "icon" := "icon.jpg"]

  /** The CDN file for an art type; any unknown type falls back to the
      header. */
  function CdnFile(artType: string): (r: string)
    ensures artType in CdnFiles ==> r == CdnFiles[artType]
    ensures artType !in CdnFiles ==> r == "header.jpg"
  {
    match artType
    case "header" => "header.jpg"
    case "library" => "library_600x900.jpg"
    case "hero" => "library_hero.jpg"
    case "logo" => "logo.png"
    case "icon" => "icon.jpg"
    case _ => "header.jpg"
  }

  const CdnBase := "https://cdn.cloudflare.steamstatic.com/steam/apps/"

  function CdnURL(appID: string, artType: string): string {
    CdnBase + appID + "/" + CdnFile(artType)
  }

  function ArtPath(artCache: string, instanceID: string, artType: string): string {
    JoinPath([artCache, instanceID, artType + ".jpg"])
  }

  /** The app id inside an instance id "steam_<appid>". */
  function ArtAppID(instanceID: string): (r: Result<string>)
    ensures r.Ok? ==> r.value != "" && (HasPrefix(instanceID, IdPrefix) ==> instanceID == IdPrefix + r.value)
    ensures r.Ok? && !HasPrefix(instanceID, IdPrefix) ==> r.value == instanceID
    ensures r.Err? ==> r.msg == "invalid instance ID format: " + instanceID
  {
    var appID := TrimPrefix(instanceID, IdPrefix);
    if appID == "" then Err("invalid instance ID format: " + instanceID) else Ok(appID)
  }

  /** Only "" and "steam_" are rejected: any other id, even one without the
      prefix, is used as an app id. */
  lemma ArtAppIDRejects(instanceID: string)
    ensures ArtAppID(instanceID).Err? <==> instanceID == "" || instanceID == IdPrefix
  {
    if instanceID == IdPrefix {
      assert HasPrefix(instanceID, IdPrefix);
    }
  }

  datatype CacheRead = CacheHit(data: Bytes) | CacheMissing | CacheFailed(msg: string)

  datatype CdnReply =
    | BadRequest(msg: string)
    | Unreachable(msg: string)
    | Reply(status: int, body: Result<Bytes>)

  datatype Art = Art(data: Bytes, contentType: string)

  /** fetchAndCacheArt: a non-200 status and a failed body read are errors,
      so is a failure to create the cache directory; a failed cache write is
      only logged. Every image is labelled "image/jpeg", logo.png included. */
  function FetchAndCacheArt(artType: string, reply: CdnReply, mkdir: Option<string>): (r: Result<Art>)
    ensures r.Ok? <==> reply.Reply? && reply.status == 200 && reply.body.Ok? && mkdir.None?
    ensures r.Ok? ==> r.value == Art(reply.body.value, "image/jpeg")
    ensures reply.Reply? && reply.status != 200 ==>
              r == Err("Steam CDN returned status " + IntToString(reply.status) + " for " + artType)
  {
    match reply
    case BadRequest(e) => Err("failed to create request: " + e)
    case Unreachable(e) => Err("failed to fetch art from Steam: " + e)
    case Reply(status, body) =>
      if status != 200 then Err("Steam CDN returned status " + IntToString(status) + " for " + artType)
      else match body
        case Err(e) => Err("failed to read art data: " + e)
        case Ok(data) =>
          if mkdir.Some? then Err("failed to create art cache directory: " + mkdir.value)
          else Ok(Art(data, "image/jpeg"))
  }

  /** GetGameArt: the id check comes first, then the cache, and only a
      missing cache file sends a request, to the URL for the art type.
      `cache` answers os.ReadFile and `fetch` the HTTP GET. */
  function GetGameArt(s: Source, instanceID: string, artType: string, cache: string -> CacheRead,
                      fetch: string -> CdnReply, mkdir: Option<string>): (r: Result<Art>)
    ensures ArtAppID(instanceID).Err? ==> r == Err(ArtAppID(instanceID).msg)
    ensures ArtAppID(instanceID).Ok? && cache(ArtPath(s.artCache, instanceID, artType)).CacheHit? ==>
              r == Ok(Art(cache(ArtPath(s.artCache, instanceID, artType)).data, "image/jpeg"))
    ensures ArtAppID(instanceID).Ok? && cache(ArtPath(s.artCache, instanceID, artType)).CacheMissing? ==>
              r == FetchAndCacheArt(artType, fetch(CdnURL(ArtAppID(instanceID).value, artType)), mkdir)
    ensures ArtAppID(instanceID).Ok? && cache(ArtPath(s.artCache, instanceID, artType)).CacheFailed? ==>
              r == Err("failed to read art: " + cache(ArtPath(s.artCache, instanceID, artType)).msg)
  {
    match ArtAppID(instanceID)
    case Err(e) => Err(e)
    case Ok(appID) =>
      var path := ArtPath(s.artCache, instanceID, artType);
      match cache(path)
      case CacheHit(data) => Ok(Art(data, "image/jpeg"))
      case CacheMissing => FetchAndCacheArt(artType, fetch(CdnURL(appID, artType)), mkdir)
      case CacheFailed(e) => Err("failed to read art: " + e)
  }

  // ---------------------------------------------------------------------
  // Launch

  const RunGamePrefix := "steam://rungameid/"

  /** The URL opener for each OS; anything but macOS and Windows is treated
      as Linux. */
  function OpenerCommand(goos: string, url: string): (r: seq<string>)
    ensures |r| >= 2 && r[|r| - 1] == url
    ensures goos == "darwin" ==> r[0] == "open"
    ensures goos == "windows" ==> r[0] == "rundll32"
    ensures goos != "darwin" && goos != "windows" ==> r == ["xdg-open", url]
  {
    if goos == "darwin" then ["open", url]
    else if goos == "windows" then ["rundll32", "url.dll,FileProtocolHandler", url]
    else ["xdg-open", url]
  }

  /** Launch: an empty SourceID is an error; otherwise the opener is started
      on "steam://rungameid/<SourceID>". `startErr` is cmd.Start's error. */
  function Launch(instance: GameInstance, goos: string, startErr: Option<string>): (r: Result<seq<string>>)
    ensures r.Ok? <==> instance.sourceID != "" && startErr.None?
    ensures instance.sourceID == "" ==> r == Err("no source ID for Steam instance")
    ensures r.Ok? ==> |r.value| >= 2
    ensures r.Ok? ==> HasPrefix(r.value[|r.value| - 1], RunGamePrefix)
                      && TrimPrefix(r.value[|r.value| - 1], RunGamePrefix) == instance.sourceID
  {
    if instance.sourceID == "" then Err("no source ID for Steam instance")
    else
      var url := RunGamePrefix + instance.sourceID;
      assert HasPrefix(url, RunGamePrefix);
      if startErr.Some? then Err("failed to launch Steam URL: " + startErr.value)
      else Ok(OpenerCommand(goos, url))
  }

  /** Every instance a manifest yields can be launched and has art: its
      instance id passes GetGameArt's check with the manifest's appid, and
      its launch URL names that appid. */
  lemma ManifestInstanceUsable(path: string, read: ManifestRead, formatMap: Fields -> string, goos: string)
    requires ParseAppManifest(path, read, formatMap).Ok?
    ensures var inst := ParseAppManifest(path, read, formatMap).value;
            && ArtAppID(inst.id) == Ok(inst.sourceID)
            && Launch(inst, goos, None).Ok?
            && Launch(inst, goos, None).value[|Launch(inst, goos, None).value| - 1] == RunGamePrefix + inst.sourceID
  {
    var inst := ParseAppManifest(path, read, formatMap).value;
    assert HasPrefix(inst.id, IdPrefix);
    assert inst.id[|IdPrefix|..] == inst.sourceID;
  }
}
