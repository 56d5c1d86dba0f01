/** The library service's bookkeeping rules: the name shown for an instance
    before metadata arrives, the two ways fetched metadata is merged into a
    game, the queueing of a metadata fetch, and the refresh that folds each
    source's instances into the stored library. The database is the
    `Library` record of keyed tables; every query is taken to succeed. */
module Library {
  import opened Wrappers
  import opened Models
  import opened Text
  import Emulated
  import Steam
  import Fetcher

  /** The stored library: games and instances by id, and the external
      metadata cache keyed by (game id, resolver name). */
  datatype Library = Library(
    games: map<string, Game>,
    instances: map<string, GameInstance>,
    external: map<(string, string), Fields>)

  /** Every instance is stored under its own id and belongs to a stored game. */
  predicate WellFormed(lib: Library) {
    forall id :: id in lib.instances ==>
      lib.instances[id].id == id && lib.instances[id].gameID in lib.games
  }

  /** A string field, or "" when it is missing or not a string (the
      `m[k].(string)` pattern). */
  function StrField(m: Fields, k: string): (r: string)
    ensures r != "" ==> k in m && m[k] == VStr(r)
    ensures k in m && m[k].VStr? ==> r == m[k].s
  {
    if k in m && m[k].VStr? then m[k].s else ""
  }

  // ---------------------------------------------------------------------
  // Display name

  function FileStem(filename: string): string {
    TrimSuffix(filename, Ext(filename))
  }

  /** getDisplayName: a non-empty custom "name", else a non-empty source
      "displayName", else the file name without its extension, else "". */
  function DisplayName(inst: GameInstance): (r: string)
    ensures StrField(inst.customMetadata, "name") != "" ==> r == StrField(inst.customMetadata, "name")
    ensures StrField(inst.customMetadata, "name") == "" && StrField(inst.sourceData, "displayName") != "" ==>
              r == StrField(inst.sourceData, "displayName")
    ensures StrField(inst.customMetadata, "name") == "" && StrField(inst.sourceData, "displayName") == "" ==>
              r == FileStem(inst.filename)
    ensures (inst.filename == "" && StrField(inst.customMetadata, "name") == ""
              && StrField(inst.sourceData, "displayName") == "") ==> r == ""
  {
    var custom := StrField(inst.customMetadata, "name");
    var shown := StrField(inst.sourceData, "displayName");
    if custom != "" then custom
    else if shown != "" then shown
    else if inst.filename != "" then FileStem(inst.filename)
    else ""
  }

  /** A ROM instance carries no custom name. */
  lemma EmulatedNoCustomName(s: Emulated.Source, path: string, info: Emulated.FileInfo, platform: string,
                             hash: string)
    requires |hash| >= 16
    ensures var inst := Emulated.CreateInstance(s, path, info, platform, Ok(hash)).value;
            StrField(inst.customMetadata, "name") == ""
  {
    var inst := Emulated.CreateInstance(s, path, info, platform, Ok(hash)).value;
    assert "name" != "emulator.available" by { assert |"name"| != |"emulator.available"|; }
    assert inst.customMetadata == map["emulator.available" := VBool(Emulated.Availability(s, platform))];
    assert "name" !in inst.customMetadata;
  }

  /** A ROM instance carries its parsed file name as the display name. */
  lemma EmulatedShownName(s: Emulated.Source, path: string, info: Emulated.FileInfo, platform: string,
                          hash: string)
    requires |hash| >= 16
    ensures var inst := Emulated.CreateInstance(s, path, info, platform, Ok(hash)).value;
            StrField(inst.sourceData, "displayName") == Emulated.ParseGameName(info.name)
            && inst.filename == info.name
  {
  }

  /** A ROM shows its parsed game name, or the raw file stem when parsing
      leaves nothing. */
  lemma EmulatedDisplayName(s: Emulated.Source, path: string, info: Emulated.FileInfo, platform: string,
                            hash: string)
    requires |hash| >= 16
    ensures var parsed := Emulated.ParseGameName(info.name);
            DisplayName(Emulated.CreateInstance(s, path, info, platform, Ok(hash)).value)
              == if parsed != "" then parsed else FileStem(info.name)
  {
    var inst := Emulated.CreateInstance(s, path, info, platform, Ok(hash)).value;
    EmulatedNoCustomName(s, path, info, platform, hash);
    EmulatedShownName(s, path, info, platform, hash);
    DisplayNameFromSource(inst, Emulated.ParseGameName(info.name));
  }

  /** Without a custom name the source's display name decides, falling
      back to the file stem. */
  lemma DisplayNameFromSource(inst: GameInstance, shown: string)
    requires StrField(inst.customMetadata, "name") == ""
    requires StrField(inst.sourceData, "displayName") == shown
    ensures DisplayName(inst) == if shown != "" then shown else FileStem(inst.filename)
  {
  }

  /** A Steam game shows the manifest's name; without one, a displayName
      field of the manifest itself, else its install directory. */
  lemma SteamDisplayName(path: string, read: Steam.ManifestRead, formatMap: Fields -> string)
    requires Steam.ParseAppManifest(path, read, formatMap).Ok?
    ensures var inst := Steam.ParseAppManifest(path, read, formatMap).value;
            var app := Steam.AppStateOf(read).value;
            var name := Steam.GetString(app, "name", formatMap);
            var dir := Steam.GetString(app, "installdir", formatMap);
            DisplayName(inst) ==
              if name != "" then name
              else if StrField(app, "displayName") != "" then StrField(app, "displayName")
              else FileStem(dir)
  {
  }

  // ---------------------------------------------------------------------
  // Merging fetched metadata

  /** onMetadataResolved's game update: only non-empty strings, a present
      release date and a non-empty genre list overwrite. */
  function ApplyResolved(g: Game, m: GameMetadata): (r: Game)
    ensures r.id == g.id && r.platforms == g.platforms && r.artURLs == g.artURLs
    ensures r.name == m.name || (m.name == "" && r.name == g.name)
    ensures r.description == m.description || (m.description == "" && r.description == g.description)
    ensures r.developer == m.developer || (m.developer == "" && r.developer == g.developer)
    ensures r.publisher == m.publisher || (m.publisher == "" && r.publisher == g.publisher)
    ensures r.releaseDate == m.releaseDate || (m.releaseDate.None? && r.releaseDate == g.releaseDate)
    ensures r.genres == m.genres || (m.genres == [] && r.genres == g.genres)
  {
    g.(name := if m.name != "" then m.name else g.name,
       description := if m.description != "" then m.description else g.description,
       developer := if m.developer != "" then m.developer else g.developer,
       publisher := if m.publisher != "" then m.publisher else g.publisher,
       releaseDate := if m.releaseDate.Some? then m.releaseDate else g.releaseDate,
       genres := if |m.genres| > 0 then m.genres else g.genres)
  }

  const NoMetadata := GameMetadata("", "", None, "", "", [])

  /** Applying the same resolved metadata twice changes nothing more, and
      empty metadata changes nothing at all. */
  lemma ApplyResolvedIdempotent(g: Game, m: GameMetadata)
    ensures ApplyResolved(ApplyResolved(g, m), m) == ApplyResolved(g, m)
    ensures ApplyResolved(g, NoMetadata) == g
  {
  }

  /** The cache document onMetadataResolved stores for the resolver. */
  function CacheDoc(m: GameMetadata, resolverName: string): (d: Fields)
    ensures "name" in d && "description" in d && "developer" in d && "publisher" in d && "genres" in d && "resolver" in d
    ensures d["name"] == VStr(m.name) && d["description"] == VStr(m.description)
    ensures d["developer"] == VStr(m.developer) && d["publisher"] == VStr(m.publisher)
    ensures d["resolver"] == VStr(resolverName)
    ensures "release_date" in d <==> m.releaseDate.Some?
  {
    var base := map[
      "name" := VStr(m.name),
      "description" := VStr(m.description),
      "developer" := VStr(m.developer),
      "publisher" := VStr(m.publisher),
      "genres" := VList(GenreValues(m.genres)),
      "resolver" := VStr(resolverName)];
    if m.releaseDate.Some? then base["release_date" := VInt(m.releaseDate.value)] else base
  }

  function GenreValues(gs: seq<string>): (vs: seq<Value>)
    ensures |vs| == |gs|
  {
    if gs == [] then [] else [VStr(gs[0])] + GenreValues(gs[1..])
  }

  /** applyCachedMetadata's game update: a non-empty string name overwrites,
      while description, developer and publisher are overwritten by any
      string value, the empty one included. */
  function ApplyCached(g: Game, cached: Fields): (r: Game)
    ensures r.(name := g.name, description := g.description, developer := g.developer, publisher := g.publisher) == g
    ensures r.name == if StrField(cached, "name") != "" then StrField(cached, "name") else g.name
    ensures "description" in cached && cached["description"].VStr? ==> r.description == cached["description"].s
    ensures !("description" in cached && cached["description"].VStr?) ==> r.description == g.description
    ensures "developer" in cached && cached["developer"].VStr? ==> r.developer == cached["developer"].s
    ensures !("developer" in cached && cached["developer"].VStr?) ==> r.developer == g.developer
    ensures "publisher" in cached && cached["publisher"].VStr? ==> r.publisher == cached["publisher"].s
    ensures !("publisher" in cached && cached["publisher"].VStr?) ==> r.publisher == g.publisher
  {
    g.(name := if StrField(cached, "name") != "" then StrField(cached, "name") else g.name,
       description := if "description" in cached && cached["description"].VStr? then cached["description"].s else g.description,
       developer := if "developer" in cached && cached["developer"].VStr? then cached["developer"].s else g.developer,
       publisher := if "publisher" in cached && cached["publisher"].VStr? then cached["publisher"].s else g.publisher)
  }

  /** The two merges differ: an empty description in fetched metadata keeps
      the game's description, while the same metadata read back from the
      cache clears it. When every string is non-empty they agree on the
      four text fields. */
  lemma MergesDiffer(g: Game, m: GameMetadata, resolverName: string)
    ensures m.description == "" ==>
              ApplyResolved(g, m).description == g.description
              && ApplyCached(g, CacheDoc(m, resolverName)).description == ""
    ensures m.name != "" && m.description != "" && m.developer != "" && m.publisher != "" ==>
              var a := ApplyResolved(g, m);
              var b := ApplyCached(g, CacheDoc(m, resolverName));
              a.name == b.name && a.description == b.description
              && a.developer == b.developer && a.publisher == b.publisher
  {
  }

  function CompletedStatus(message: string): MetadataStatus {
    MetadataStatus(Completed, message, "", [])
  }

  const FetchingStatus := MetadataStatus(Fetching, "Fetching metadata from IGDB...", "", [])

  function SetStatus(lib: Library, instanceID: string, st: MetadataStatus): (r: Library)
    ensures r.games == lib.games && r.external == lib.external
    ensures r.instances.Keys == lib.instances.Keys
    ensures instanceID in lib.instances ==> r.instances[instanceID] == lib.instances[instanceID].(metadataStatus := st)
    ensures forall id :: id in lib.instances && id != instanceID ==> r.instances[id] == lib.instances[id]
    ensures WellFormed(lib) ==> WellFormed(r)
  {
    if instanceID in lib.instances then
      lib.(instances := lib.instances[instanceID := lib.instances[instanceID].(metadataStatus := st)])
    else lib
  }

  /** UpdateGame: the games row takes the name, description, release date,
      developer and publisher of `g`; genres, platforms and art live in
      other tables and keep what is stored. */
  function UpdateGame(stored: Game, g: Game): (r: Game)
    ensures r.id == stored.id
    ensures r.name == g.name && r.description == g.description && r.releaseDate == g.releaseDate
    ensures r.developer == g.developer && r.publisher == g.publisher
    ensures r.genres == stored.genres && r.platforms == stored.platforms && r.artURLs == stored.artURLs
  {
    stored.(name := g.name, description := g.description, releaseDate := g.releaseDate,
            developer := g.developer, publisher := g.publisher)
  }

  /** onMetadataResolved: a missing game leaves everything as it is;
      otherwise the game is merged, the metadata cached under the resolver's
      name and the instance marked completed. The merge happens in memory
      and is written back with UpdateGame, so fetched genres reach the cache
      document but not the stored game. Art download is not modelled. */
  function OnMetadataResolved(lib: Library, req: FetchRequest, resolved: ResolvedMetadata, resolverName: string): (r: Library)
    ensures r.instances.Keys == lib.instances.Keys
    ensures req.gameID !in lib.games ==> r == lib
    ensures req.gameID in lib.games ==> r.games.Keys == lib.games.Keys
    ensures req.gameID in lib.games ==>
              var m := resolved.gameMetadata;
              var g := r.games[req.gameID];
              && (g.name == if m.name != "" then m.name else lib.games[req.gameID].name)
              && (g.description == if m.description != "" then m.description else lib.games[req.gameID].description)
              && (g.releaseDate == if m.releaseDate.Some? then m.releaseDate else lib.games[req.gameID].releaseDate)
              && g.genres == lib.games[req.gameID].genres
    ensures req.gameID in lib.games ==>
              && r.games == lib.games[req.gameID := UpdateGame(lib.games[req.gameID], ApplyResolved(lib.games[req.gameID], resolved.gameMetadata))]
              && r.external == lib.external[(req.gameID, resolverName) := CacheDoc(resolved.gameMetadata, resolverName)]
              && (req.instanceID in lib.instances ==>
                    r.instances[req.instanceID] == lib.instances[req.instanceID].(metadataStatus := CompletedStatus("Resolved from " + resolverName)))
    ensures forall id :: id in lib.instances && id != req.instanceID ==> r.instances[id] == lib.instances[id]
    ensures WellFormed(lib) ==> WellFormed(r)
  {
    if req.gameID !in lib.games then lib
    else
      var g := UpdateGame(lib.games[req.gameID], ApplyResolved(lib.games[req.gameID], resolved.gameMetadata));
      var cached := lib.(games := lib.games[req.gameID := g],
                         external := lib.external[(req.gameID, resolverName) := CacheDoc(resolved.gameMetadata, resolverName)]);
      assert cached.games.Keys == lib.games.Keys && cached.instances == lib.instances;
      assert WellFormed(lib) ==> WellFormed(cached);
      SetStatus(cached, req.instanceID, CompletedStatus("Resolved from " + resolverName))
  }

  /** applyCachedMetadata: an error for a missing game, else the merge and a
      completed status. */
  function ApplyCachedMetadata(lib: Library, inst: GameInstance, cached: Fields): (r: Result<Library>)
    ensures r.Err? <==> inst.gameID !in lib.games
    ensures r.Err? ==> r.msg == "game not found: " + inst.gameID
    ensures r.Ok? ==> r.value.instances.Keys == lib.instances.Keys && r.value.external == lib.external
    ensures r.Ok? && WellFormed(lib) ==> WellFormed(r.value)
    ensures r.Ok? ==> r.value.games == lib.games[inst.gameID := ApplyCached(lib.games[inst.gameID], cached)]
    ensures r.Ok? && inst.id in lib.instances ==>
              r.value.instances[inst.id].metadataStatus == CompletedStatus("Using cached metadata")
    ensures r.Ok? && inst.id in lib.instances ==>
              r.value.instances[inst.id] == lib.instances[inst.id].(metadataStatus := CompletedStatus("Using cached metadata"))
    ensures r.Ok? ==> forall id :: id in lib.instances && id != inst.id ==> r.value.instances[id] == lib.instances[id]
  {
    if inst.gameID !in lib.games then Err("game not found: " + inst.gameID)
    else
      var g := ApplyCached(lib.games[inst.gameID], cached);
      Ok(SetStatus(lib.(games := lib.games[inst.gameID := g]), inst.id, CompletedStatus("Using cached metadata")))
  }

  // ---------------------------------------------------------------------
  // Queueing a fetch

  /** The request queueMetadataFetch builds; it carries the instance's
      source and platform, which the IGDB resolver reads. */
  function RequestFor(inst: GameInstance): (req: FetchRequest)
    ensures req.gameID == inst.gameID && req.instanceID == inst.id
    ensures req.source == inst.source && req.platform == inst.platform && req.platforms == [inst.platform]
    ensures req.name == DisplayName(inst) && req.fileHash == inst.fileHash && req.priority == 1
  {
    FetchRequest(inst.gameID, inst.id, 1, [inst.platform], DisplayName(inst), inst.fileHash, inst.source, inst.platform)
  }

  function RenameGame(lib: Library, gameID: string, name: string): (r: Library)
    ensures r.instances == lib.instances && r.external == lib.external && r.games.Keys == lib.games.Keys
    ensures gameID in lib.games ==> r.games[gameID] == lib.games[gameID].(name := name)
    ensures forall id :: id in lib.games && id != gameID ==> r.games[id] == lib.games[id]
    ensures WellFormed(lib) ==> WellFormed(r)
  {
    if gameID in lib.games then lib.(games := lib.games[gameID := lib.games[gameID].(name := name)]) else lib
  }

  /** The fetcher after a send: changed only when the request was queued. */
  function AfterSend(f: Fetcher.Fetcher, req: FetchRequest): Fetcher.Fetcher {
    match Fetcher.Queue(f, req) case Queued(g) => g case _ => f
  }

  datatype Queued = Queued(lib: Library, fetcher: Fetcher.Fetcher, request: Option<FetchRequest>)

  /** queueMetadataFetch: the game is renamed to the display name; cached
      IGDB metadata, when present and applicable, is used instead of a
      fetch; otherwise the instance is marked fetching and the request
      handed to the fetcher (a refused send is only logged). */
  method QueueMetadataFetch(lib: Library, f: Fetcher.Fetcher, inst: GameInstance) returns (r: Queued)
    ensures r.lib.games.Keys == lib.games.Keys && r.lib.instances.Keys == lib.instances.Keys
    ensures r.lib.external == lib.external
    ensures r.request.None? <==> (inst.gameID, "igdb") in lib.external && inst.gameID in lib.games
    ensures r.request.None? ==> r.fetcher == f
    ensures r.request.None? ==>
              r.lib.games == lib.games[inst.gameID := ApplyCached(lib.games[inst.gameID].(name := DisplayName(inst)),
                                                                  lib.external[(inst.gameID, "igdb")])]
    ensures r.request.None? && inst.id in lib.instances ==>
              r.lib.instances[inst.id].metadataStatus == CompletedStatus("Using cached metadata")
    ensures r.request.Some? ==> r.request.value == RequestFor(inst)
    ensures r.request.Some? ==>
              r.fetcher == AfterSend(f, RequestFor(inst))
    ensures r.request.Some? && inst.id in lib.instances ==> r.lib.instances[inst.id].metadataStatus == FetchingStatus
    ensures r.request.Some? && inst.gameID in lib.games ==>
              r.lib.games[inst.gameID] == lib.games[inst.gameID].(name := DisplayName(inst))
    ensures forall id :: id in lib.games && id != inst.gameID ==> r.lib.games[id] == lib.games[id]
    ensures forall id :: id in lib.instances && id != inst.id ==> r.lib.instances[id] == lib.instances[id]
    ensures WellFormed(lib) ==> WellFormed(r.lib)
    ensures inst.id in lib.instances ==>
              r.lib.instances[inst.id] == lib.instances[inst.id].(metadataStatus := r.lib.instances[inst.id].metadataStatus)
  {
    var named := RenameGame(lib, inst.gameID, DisplayName(inst));
    var cachedHit :=
      if (inst.gameID, "igdb") in lib.external then ApplyCachedMetadata(named, inst, lib.external[(inst.gameID, "igdb")])
      else Err("no cache");
    if cachedHit.Ok? {
      r := Queued(cachedHit.value, f, None);
    } else {
      r := SendFetch(named, f, inst);
    }
  }

  /** The fetch branch of queueMetadataFetch: the instance is marked
      fetching and the request handed to the fetcher. */
  method SendFetch(lib: Library, f: Fetcher.Fetcher, inst: GameInstance) returns (r: Queued)
    ensures r.lib.games == lib.games && r.lib.external == lib.external
    ensures r.lib.instances.Keys == lib.instances.Keys
    ensures r.request == Some(RequestFor(inst)) && r.fetcher == AfterSend(f, RequestFor(inst))
    ensures inst.id in lib.instances ==> r.lib.instances[inst.id] == lib.instances[inst.id].(metadataStatus := FetchingStatus)
    ensures forall id :: id in lib.instances && id != inst.id ==> r.lib.instances[id] == lib.instances[id]
    ensures WellFormed(lib) ==> WellFormed(r.lib)
  {
    var req := RequestFor(inst);
    r := Queued(SetStatus(lib, inst.id, FetchingStatus), AfterSend(f, req), Some(req));
  }

  // ---------------------------------------------------------------------
  // Refresh

  /** A custom-metadata value as Go reads it from a map: nil when missing. */
  function Lookup(m: Fields, k: string): Value {
    if k in m then m[k] else VNull
  }

  /** The refresh's change test: some incoming value differs from the
      stored one. The stored map is never nil, because the instance read
      always builds one, so Go's nil test never fires. */
  predicate NeedsMetadataUpdate(stored: Fields, incoming: Fields) {
    exists k :: k in incoming && Lookup(stored, k) != incoming[k]
  }

  /** Union of two metadata maps, the second one winning. */
  function MergeFields(a: Fields, b: Fields): (r: Fields)
    ensures r.Keys == a.Keys + b.Keys
    ensures forall k :: k in b ==> r[k] == b[k]
    ensures forall k :: k in a && k !in b ==> r[k] == a[k]
  {
    map k | k in a.Keys + b.Keys :: if k in b then b[k] else a[k]
  }

  predicate InstallFieldsDiffer(e: GameInstance, inst: GameInstance) {
    e.installPath != inst.installPath || e.fileSize != inst.fileSize || e.installed != inst.installed
  }

  /** The stored instance after the refresh's two updates. */
  function SyncExisting(e: GameInstance, inst: GameInstance): (r: GameInstance)
    ensures r.installPath == inst.installPath && r.fileSize == inst.fileSize && r.installed == inst.installed
    ensures |inst.customMetadata| > 0 && NeedsMetadataUpdate(e.customMetadata, inst.customMetadata) ==>
              r.customMetadata == MergeFields(e.customMetadata, inst.customMetadata)
    ensures !(|inst.customMetadata| > 0 && NeedsMetadataUpdate(e.customMetadata, inst.customMetadata)) ==>
              r.customMetadata == e.customMetadata
    ensures r.(customMetadata := e.customMetadata, installPath := e.installPath,
               fileSize := e.fileSize, installed := e.installed) == e
  {
    var custom :=
      if |inst.customMetadata| > 0 && NeedsMetadataUpdate(e.customMetadata, inst.customMetadata)
      then MergeFields(e.customMetadata, inst.customMetadata)
      else e.customMetadata;
    e.(customMetadata := custom, installPath := inst.installPath, fileSize := inst.fileSize, installed := inst.installed)
  }

  /** After the sync every non-nil incoming value is stored: either the
      values were already equal or the merge wrote them. */
  lemma SyncKeepsIncoming(e: GameInstance, inst: GameInstance)
    ensures forall k :: k in inst.customMetadata && inst.customMetadata[k] != VNull ==>
              k in SyncExisting(e, inst).customMetadata
              && SyncExisting(e, inst).customMetadata[k] == inst.customMetadata[k]
  {
    forall k | k in inst.customMetadata && inst.customMetadata[k] != VNull
      ensures k in SyncExisting(e, inst).customMetadata
      ensures SyncExisting(e, inst).customMetadata[k] == inst.customMetadata[k]
    {
      assert |inst.customMetadata| > 0 by {
        assert k in inst.customMetadata.Keys;
      }
      if !NeedsMetadataUpdate(e.customMetadata, inst.customMetadata) {
        assert Lookup(e.customMetadata, k) == inst.customMetadata[k];
      }
    }
  }

  /** A new game record for an instance whose game is not stored yet. */
  function PlaceholderGame(inst: GameInstance): (g: Game)
    ensures g.id == inst.gameID && g.name == DisplayName(inst) && g.platforms == [inst.platform]
  {
    Game(inst.gameID, DisplayName(inst), "", None, "", "", [], [inst.platform], map[])
  }

  /** What the instance table keeps of an instance: it has no column for
      the source's data, so an instance read back carries none. */
  function Persisted(inst: GameInstance): (r: GameInstance)
    ensures r.sourceData == map[]
    ensures r.(sourceData := inst.sourceData) == inst
  {
    inst.(sourceData := map[])
  }

  /** The new instance stored, with a placeholder game when its game id is
      not stored yet. */
  function StoreNew(lib: Library, inst: GameInstance): (r: Library)
    ensures r.instances == lib.instances[inst.id := Persisted(inst)]
    ensures inst.gameID in lib.games ==> r.games == lib.games
    ensures inst.gameID !in lib.games ==> r.games == lib.games[inst.gameID := PlaceholderGame(inst)]
    ensures r.external == lib.external
    ensures inst.id !in lib.instances && WellFormed(lib) ==> WellFormed(r)
  {
    var games := if inst.gameID in lib.games then lib.games else lib.games[inst.gameID := PlaceholderGame(inst)];
    lib.(games := games, instances := lib.instances[inst.id := Persisted(inst)])
  }

  /** A new instance is stored without its source data, with a placeholder
      game when its game is not stored yet, and queued for a fetch of the
      instance as the source reported it. */
  method RefreshNew(lib: Library, f: Fetcher.Fetcher, inst: GameInstance) returns (r: Queued)
    requires inst.id !in lib.instances
    ensures r.lib.instances.Keys == lib.instances.Keys + {inst.id}
    ensures r.lib.instances[inst.id].sourceData == map[]
    ensures r.lib.instances[inst.id] == Persisted(inst).(metadataStatus := r.lib.instances[inst.id].metadataStatus)
    ensures forall id :: id in lib.instances ==> r.lib.instances[id] == lib.instances[id]
    ensures lib.games.Keys <= r.lib.games.Keys && inst.gameID in r.lib.games
    ensures r.lib.external == lib.external
    ensures r.request.None? <==> (inst.gameID, "igdb") in lib.external
    ensures r.request.None? ==>
              r.fetcher == f && r.lib.instances[inst.id].metadataStatus == CompletedStatus("Using cached metadata")
    ensures r.request.Some? ==>
              r.request.value == RequestFor(inst) && r.fetcher == AfterSend(f, RequestFor(inst))
              && r.lib.instances[inst.id].metadataStatus == FetchingStatus
    ensures WellFormed(lib) ==> WellFormed(r.lib)
  {
    r := QueueMetadataFetch(StoreNew(lib, inst), f, inst);
  }

  /** The copy of an existing instance that the refresh queues: the row as
      read, so without source data, with the new install fields and the
      metadata as it was before the sync. */
  function QueuedCopy(e: GameInstance, inst: GameInstance): (r: GameInstance)
    ensures r.sourceData == map[] && r.customMetadata == e.customMetadata
    ensures r.installPath == inst.installPath && r.fileSize == inst.fileSize && r.installed == inst.installed
    ensures r.id == e.id && r.gameID == e.gameID && r.filename == e.filename && r.platform == e.platform
  {
    Persisted(e).(installPath := inst.installPath, fileSize := inst.fileSize, installed := inst.installed)
  }

  /** The name a re-queued instance is fetched under: the stored custom
      name, else the stem of the stored file name, never the source's
      display name. */
  lemma RequeuedName(e: GameInstance, inst: GameInstance)
    ensures RequestFor(QueuedCopy(e, inst)).name ==
      if StrField(e.customMetadata, "name") != "" then StrField(e.customMetadata, "name")
      else if e.filename != "" then FileStem(e.filename) else ""
  {
  }

  /** The library with an existing instance's row synced. */
  method Synced(lib: Library, inst: GameInstance) returns (r: Library)
    requires inst.id in lib.instances
    ensures r.instances == lib.instances[inst.id := SyncExisting(lib.instances[inst.id], inst)]
    ensures r.games == lib.games && r.external == lib.external
    ensures WellFormed(lib) && lib.instances[inst.id].id == inst.id ==> WellFormed(r)
  {
    r := lib.(instances := lib.instances[inst.id := SyncExisting(lib.instances[inst.id], inst)]);
  }

  /** The sync of an existing instance followed by a fetch of its stored
      row: cached IGDB metadata is applied, or a request is sent. */
  method Requeue(lib: Library, f: Fetcher.Fetcher, inst: GameInstance) returns (r: Queued)
    requires inst.id in lib.instances
    ensures r.lib.instances.Keys == lib.instances.Keys && r.lib.games.Keys == lib.games.Keys
    ensures var e := lib.instances[inst.id];
            && (r.request.None? <==> (e.gameID, "igdb") in lib.external && e.gameID in lib.games)
            && (r.request.Some? ==> r.request.value == RequestFor(QueuedCopy(e, inst)))
            && r.lib.instances[inst.id] == SyncExisting(e, inst).(metadataStatus := r.lib.instances[inst.id].metadataStatus)
    ensures r.request.None? ==> r.fetcher == f
    ensures r.request.Some? ==> r.fetcher == AfterSend(f, r.request.value)
    ensures r.lib.external == lib.external
    ensures WellFormed(lib) ==>
              r.lib.instances[inst.id].metadataStatus
                == if r.request.Some? then FetchingStatus else CompletedStatus("Using cached metadata")
    ensures WellFormed(lib) ==>
              forall id :: id in lib.instances && id != inst.id ==> r.lib.instances[id] == lib.instances[id]
    ensures WellFormed(lib) ==> WellFormed(r.lib)
  {
    var e := lib.instances[inst.id];
    var synced := Synced(lib, inst);
    var q := QueuedCopy(e, inst);
    assert q.id == e.id && q.gameID == e.gameID;
    r := QueueMetadataFetch(synced, f, q);
    if q.id != inst.id {
      assert r.lib.instances[inst.id] == synced.instances[inst.id];
    }
  }

  /** An existing instance has its metadata and install fields synced, and
      is queued again unless its fetch has completed. */
  method RefreshExisting(lib: Library, f: Fetcher.Fetcher, inst: GameInstance) returns (r: Queued)
    requires inst.id in lib.instances
    ensures r.lib.instances.Keys == lib.instances.Keys && r.lib.games.Keys == lib.games.Keys
    ensures lib.instances[inst.id].metadataStatus.state == Completed ==>
              r.request.None? && r.fetcher == f
              && r.lib.instances[inst.id] == SyncExisting(lib.instances[inst.id], inst)
    ensures lib.instances[inst.id].metadataStatus.state != Completed ==>
              var e := lib.instances[inst.id];
              && (r.request.None? <==> (e.gameID, "igdb") in lib.external && e.gameID in lib.games)
              && (r.request.Some? ==> r.request.value == RequestFor(QueuedCopy(e, inst)))
              && r.lib.instances[inst.id] == SyncExisting(e, inst).(metadataStatus := r.lib.instances[inst.id].metadataStatus)
    ensures r.request.None? ==> r.fetcher == f
    ensures r.request.Some? ==> r.fetcher == AfterSend(f, r.request.value)
    ensures r.lib.external == lib.external
    ensures WellFormed(lib) && lib.instances[inst.id].metadataStatus.state != Completed ==>
              r.lib.instances[inst.id].metadataStatus
                == if r.request.Some? then FetchingStatus else CompletedStatus("Using cached metadata")
    ensures WellFormed(lib) ==>
              forall id :: id in lib.instances && id != inst.id ==> r.lib.instances[id] == lib.instances[id]
    ensures WellFormed(lib) ==> WellFormed(r.lib)
  {
    if lib.instances[inst.id].metadataStatus.state != Completed {
      r := Requeue(lib, f, inst);
    } else {
      var synced := Synced(lib, inst);
      r := Queued(synced, f, None);
    }
  }

  /** RefreshGames for one instance a source reported. */
  method RefreshInstance(lib: Library, f: Fetcher.Fetcher, inst: GameInstance) returns (r: Queued)
    ensures r.lib.instances.Keys == lib.instances.Keys + {inst.id}
    ensures lib.games.Keys <= r.lib.games.Keys
    ensures r.lib.external == lib.external
    ensures inst.id !in lib.instances ==>
              && (r.request.None? <==> (inst.gameID, "igdb") in lib.external)
              && (r.request.Some? ==> r.request.value == RequestFor(inst))
              && r.lib.instances[inst.id] == Persisted(inst).(metadataStatus := r.lib.instances[inst.id].metadataStatus)
    ensures inst.id in lib.instances && lib.instances[inst.id].metadataStatus.state == Completed ==>
              r.request.None? && r.lib.instances[inst.id] == SyncExisting(lib.instances[inst.id], inst)
    ensures inst.id in lib.instances && lib.instances[inst.id].metadataStatus.state != Completed ==>
              var e := lib.instances[inst.id];
              && (r.request.None? <==> (e.gameID, "igdb") in lib.external && e.gameID in lib.games)
              && (r.request.Some? ==> r.request.value == RequestFor(QueuedCopy(e, inst)))
              && r.lib.instances[inst.id] == SyncExisting(e, inst).(metadataStatus := r.lib.instances[inst.id].metadataStatus)
    ensures r.request.None? ==> r.fetcher == f
    ensures r.request.Some? ==> r.fetcher == AfterSend(f, r.request.value)
    ensures WellFormed(lib) && (inst.id !in lib.instances || lib.instances[inst.id].metadataStatus.state != Completed) ==>
              r.lib.instances[inst.id].metadataStatus
                == if r.request.Some? then FetchingStatus else CompletedStatus("Using cached metadata")
    ensures WellFormed(lib) ==>
              forall id :: id in lib.instances && id != inst.id ==> r.lib.instances[id] == lib.instances[id]
    ensures WellFormed(lib) ==> WellFormed(r.lib)
  {
    if inst.id !in lib.instances {
      r := RefreshNew(lib, f, inst);
    } else {
      r := RefreshExisting(lib, f, inst);
    }
  }

  /** The inner loop of RefreshGames over one source's instances. */
  method RefreshBatch(lib: Library, f: Fetcher.Fetcher, insts: seq<GameInstance>) returns (r: Queued)
    ensures forall k :: 0 <= k < |insts| ==> insts[k].id in r.lib.instances
    ensures lib.instances.Keys <= r.lib.instances.Keys && lib.games.Keys <= r.lib.games.Keys
    ensures WellFormed(lib) ==> WellFormed(r.lib)
  {
    var cur, fetcher := lib, f;
    for i := 0 to |insts|
      invariant forall k :: 0 <= k < i ==> insts[k].id in cur.instances
      invariant lib.instances.Keys <= cur.instances.Keys && lib.games.Keys <= cur.games.Keys
      invariant WellFormed(lib) ==> WellFormed(cur)
    {
      var q := RefreshInstance(cur, fetcher, insts[i]);
      cur, fetcher := q.lib, q.fetcher;
    }
    r := Queued(cur, fetcher, None);
  }

  /** RefreshGames: each source's listing in turn; a failed listing is
      skipped. Afterwards every listed instance is stored, nothing stored
      is lost, and the library stays well formed. */
  method RefreshGames(lib: Library, f: Fetcher.Fetcher, listings: seq<Result<seq<GameInstance>>>) returns (r: Queued)
    ensures forall j, k :: 0 <= j < |listings| && listings[j].Ok? && 0 <= k < |listings[j].value| ==>
              listings[j].value[k].id in r.lib.instances
    ensures lib.instances.Keys <= r.lib.instances.Keys && lib.games.Keys <= r.lib.games.Keys
    ensures WellFormed(lib) ==> WellFormed(r.lib)
  {
    var cur, fetcher := lib, f;
    for i := 0 to |listings|
      invariant forall j, k :: 0 <= j < i && listings[j].Ok? && 0 <= k < |listings[j].value| ==>
                  listings[j].value[k].id in cur.instances
      invariant lib.instances.Keys <= cur.instances.Keys && lib.games.Keys <= cur.games.Keys
      invariant WellFormed(lib) ==> WellFormed(cur)
    {
      if listings[i].Ok? {
        var q := RefreshBatch(cur, fetcher, listings[i].value);
        cur, fetcher := q.lib, q.fetcher;
      }
    }
    r := Queued(cur, fetcher, None);
  }
}
