/** The records shared by every package of the game library: games, their
    installed copies, emulator configuration and the metadata that external
    resolvers return. Timestamps are Unix seconds; progress and wall-clock
    bookkeeping fields are not part of the model. */
module Models {
  import opened Wrappers

  /** The dynamically typed values that populate Go's `map[string]any`
      (custom metadata, source data, filter options). Numbers decoded from
      JSON are float64 in Go and appear here as `VFloat`. */
  datatype Value =
    | VStr(s: string)
    | VInt(i: int)
    | VFloat(text: string)
    | VBool(b: bool)
    | VMap(m: map<string, Value>)
    | VList(items: seq<Value>)
    | VNull

  type Fields = map<string, Value>

  /** Raw file and HTTP body contents. */
  type Bytes = seq<bv8>

  /** `Unset` is the zero value: a status nobody has written yet. */
  datatype MetadataState = Unset | Idle | Fetching | Completed | Error | Cancelled

  const NoStatus := MetadataStatus(Unset, "", "", [])

  datatype MetadataStatus = MetadataStatus(
    state: MetadataState,
    message: string,
    error: string,
    sourcesTried: seq<string>)

  /** A game as the catalogue knows it, independent of where it is installed. */
  datatype Game = Game(
    id: string,
    name: string,
    description: string,
    releaseDate: Option<int>,
    developer: string,
    publisher: string,
    genres: seq<string>,
    platforms: seq<string>,
    artURLs: map<string, string>)

  /** One copy of a game provided by a source (a Steam install, a ROM file). */
  datatype GameInstance = GameInstance(
    id: string,
    gameID: string,
    source: string,
    platform: string,
    sourceID: string,
    path: string,
    filename: string,
    fileSize: int,
    fileHash: string,
    installed: bool,
    installPath: string,
    metadataStatus: MetadataStatus,
    customMetadata: Fields,
    sourceData: Fields,
    createdAt: int)

  datatype GameWithInstance = GameWithInstance(game: Game, instance: GameInstance)

  datatype GameFilter = GameFilter(
    installedOnly: bool,
    source: string,
    platform: string,
    search: string,
    genres: seq<string>,
    sourceFilters: map<string, Fields>)

  datatype GameSort = GameSort(field: string, order: string)

  /** A metadata fetch request. Unlike the Go struct it carries the source and
      platform, which the library and the IGDB resolver read. */
  datatype FetchRequest = FetchRequest(
    gameID: string,
    instanceID: string,
    priority: int,
    platforms: seq<string>,
    name: string,
    fileHash: string,
    source: string,
    platform: string)

  datatype GameMetadata = GameMetadata(
    name: string,
    description: string,
    releaseDate: Option<int>,
    developer: string,
    publisher: string,
    genres: seq<string>)

  datatype PlatformMetadata = PlatformMetadata(
    platform: string,
    releaseDate: Option<int>,
    region: string,
    rating: string)

  datatype ResolvedMetadata = ResolvedMetadata(
    gameMetadata: GameMetadata,
    platformMetadata: map<string, PlatformMetadata>,
    artURLs: map<string, string>)

  /** How an emulator is installed. Any other stored type string is `OtherType`. */
  datatype EmulatorType = Flatpak | Native | AppImage | OtherType(name: string)

  datatype Emulator = Emulator(
    id: string,
    name: string,
    displayName: string,
    etype: EmulatorType,
    executablePath: string,
    flatpakID: string,
    commandTemplate: string,
    defaultArgs: string,
    supportedPlatforms: seq<string>,
    isAvailable: bool)

  /** A RetroArch core: a library loaded by its parent emulator. */
  datatype EmulatorCore = EmulatorCore(
    id: string,
    emulatorID: string,
    coreID: string,
    displayName: string,
    supportedPlatforms: seq<string>,
    isAvailable: bool)

  /** A (platform, emulator, optional core) pairing. `coreID == ""` is a
      standalone emulator. */
  datatype PlatformEmulator = PlatformEmulator(
    id: string,
    platform: string,
    emulatorID: string,
    coreID: string,
    isDefault: bool,
    priority: int)

  /** A per-instance emulator override. */
  datatype InstanceEmulatorSettings = InstanceEmulatorSettings(
    instanceID: string,
    emulatorID: string,
    coreID: string,
    customArgs: string)
}
