# gentro-ui game library, modelled in Dafny

This project models the decision logic of the gentro-ui games service: a
desktop game library that gathers game instances from sources (ROM files
run through emulators, and installed Steam apps), fetches metadata for
them from IGDB, and serves listings, launch commands and header art to the
user interface.

The model keeps the service's rules and leaves its plumbing out. SQLite,
HTTP, process spawning, goroutines and UI events are not modelled. Their
results are inputs to pure functions over immutable records, sequences
and maps.

Modules follow the Go packages:

- `Wrappers`, `Text`, `Seqs` hold `Option`/`Result` and the small string and
  sequence functions the Go code takes from its standard library:
  `strings.TrimPrefix`, `Split`, `ToLower`, `filepath.Ext`, `filepath.Join`,
  `strconv.ParseInt`, `%q` quoting.
- `Models` holds the records of `models/models.go`.
- `Defaults` holds the seeded emulator, core and platform-default tables.
- `Store` is the database as keyed record tables, with the query semantics
  of the emulator queries.
- `EmulatorService` covers emulator resolution (instance override, then
  platform default, then the first available pair), discovery, and the
  regeneration of platform mappings.
- `Tokenizer` and `Command` model command building: argument combination,
  placeholder substitution, path quoting, and the quote-aware tokeniser.
- `Instances` is the GetInstances query with its de-duplication and
  metadata merge.
- `Fetcher` is the metadata fetcher as a sequential state machine: running
  flag, bounded queue, cancellation registry, and the resolver chain.
- `Igdb` holds the IGDB client helpers and resolver.
- `Emulated` and `Steam` are the two sources.
- `Registry` is the source registry.
- `Monitor` covers the activity monitor's debounce and the Wine path check
  that finds a game's processes.
- `Library` covers display names, the two metadata merges, metadata
  queueing and the refresh.
- `Ordering` and `Listing` cover GetGames's source filters, search, genre
  filter and sort.
- `ArtRoutes` is the art URL and its HTTP handler.
- `Art` is the header composer and the art cache.

Where the code and its documentation disagree, the model follows the code:

- `FetchRequest` carries `source` and `platform`. The resolver and the
  library read and write these fields, although the record declaration in
  `models.go` lacks them.
- The logo on a composed header is scaled to at most 60% of the header
  width. The code computes 60%; the comment says 50%.
- The fetcher has no per-resolver `Supports` gate and no success callback.
  The library calls a callback setter that the fetcher does not define.
- Steam instances carry no tool or type classification: steam.go
  implements neither, and the expectations of steam_test.go are not
  modelled.
- A resolved fetch writes the merged game back with UpdateGame, which
  stores name, description, release date, developer and publisher only.
  Fetched genres reach the cached metadata document but not the stored
  game.
- The database has no column for an instance's source data, so a stored
  instance reads back without it. A re-queued instance is therefore
  fetched under its custom name or its file stem, never under the
  display name its source reported.
- The comments of steam.go and games.go say Steam launches are watched by
  the polling monitor, but Steam's MonitorProcess is empty and nothing
  calls that monitor (see "## Findings").

## Model

| member | source | states |
|---|---|---|
| Defaults.DefaultsNameSeededEmulators | gentro-ui/services/games/emulator/defaults.go:12-52 | every platform in the default table names an emulator id that the seed list contains |
| Defaults.DefaultCoresSupportPlatform | gentro-ui/services/games/emulator/defaults.go:12-86 | every default that names a core names a seeded RetroArch core with that core id which supports the platform |
| Defaults.DefaultTablesWellFormed | gentro-ui/services/games/emulator/defaults.go:19-86 | seeded emulator ids and core ids are pairwise distinct, every core belongs to RetroArch, and RetroArch itself lists no platforms |
| Defaults.DefaultTemplatesHavePlaceholders | gentro-ui/services/games/emulator/defaults.go:19-52 | every seeded command template contains the {flatpak_id} and {rom} placeholders |
| Store.EmptyStoreValid | gentro-ui/services/games/database/database.go:123-165 | the empty database satisfies the primary-key and UNIQUE(platform, emulator_id, core_id) constraints, with every priority at its default 0 |
| Store.GetEmulator | gentro-ui/services/games/database/database.go:730-744 | the row with the requested id exactly when one exists; otherwise the sql no-rows error |
| Store.UpsertEmulator | gentro-ui/services/games/database/database.go:710-727 | afterwards the id reads back the new columns with the old is_available kept on conflict; every other id reads as before; other tables untouched; constraints preserved |
| Store.UpdateEmulatorAvailability | gentro-ui/services/games/database/database.go:772-776 | only the is_available flag of rows with that id changes; constraints preserved |
| Store.GetCore | gentro-ui/services/games/database/database.go:830-842 | a core row with the requested (emulator id, core id) exactly when one exists; otherwise the no-rows error |
| Store.GetEmulatorCores | gentro-ui/services/games/database/database.go:797-827 | all cores for an empty emulator id, otherwise exactly the cores of that emulator |
| Store.UpsertEmulatorCore | gentro-ui/services/games/database/database.go:781-794 | afterwards the core id reads back the new columns with is_available kept on conflict; other ids unchanged; constraints preserved |
| Store.UpdateCoreAvailability | gentro-ui/services/games/database/database.go:845-849 | only is_available of the rows with that id changes; constraints preserved |
| Store.UpsertPlatformEmulator | gentro-ui/services/games/database/database.go:854-866 | succeeds unless another row already holds the (platform, emulator, core) triple; on success the mappings are the old rows plus one upserted row, which has the new id, triple and default flag and keeps the old row's priority on conflict (0 on insert); every mapping with another id survives and, on a valid store, the upserted row is the only one with its id; other tables untouched; constraints preserved |
| Store.ClearPlatformEmulators | gentro-ui/services/games/database/database.go:869-872 | every mapping is deleted and nothing else changes |
| Store.SetPlatformDefaultEmulator | gentro-ui/services/games/database/database.go:1053-1063 | mappings of other platforms are unchanged; within the platform is_default is set exactly on the rows with the requested triple |
| Store.SetDefaultSingle | gentro-ui/services/games/database/database.go:1053-1063 | on a valid store the platform ends with at most one default mapping, and it has the requested triple |
| Store.SetDefaultNoMatch | gentro-ui/services/games/database/database.go:876-925 | when no mapping has the requested triple, the platform has no default afterwards and the default lookup fails |
| Store.LeftJoinCores | gentro-ui/services/games/database/database.go:928-980 | the LEFT JOIN of one mapping and emulator: one row per joining core, or one row with a NULL core when none joins |
| Store.JoinRows | gentro-ui/services/games/database/database.go:928-980 | every row comes from a mapping of the platform and its emulator, and every such (mapping, emulator, core) combination appears |
| Store.GetDefaultEmulatorForPlatform | gentro-ui/services/games/database/database.go:876-925 | a join row that is the default (and available when required) exactly when one exists, otherwise the no-rows error |
| Store.GetAvailableEmulatorsForPlatform | gentro-ui/services/games/database/database.go:990-1050 | exactly the join rows whose emulator is available and whose core is NULL or available |
| Store.SetInstanceEmulatorSettings | gentro-ui/services/games/database/database.go:1068-1079 | an upsert keyed by instance id; other instances' settings unchanged |
| Store.GetInstanceEmulatorSettings | gentro-ui/services/games/database/database.go:1082-1092 | the stored row exactly when one exists |
| Store.SettingsReadBack | gentro-ui/services/games/database/database.go:1068-1092 | a read returns the last write for that instance and is unaffected by writes for other instances |
| Store.StoreGameArt | gentro-ui/services/games/database/database.go:310-323 | an upsert keyed by (game, art type); other keys unchanged |
| Store.GetGameArtSource | gentro-ui/services/games/database/database.go:326-336 | the stored source, or "" when there is no row |
| Store.ArtSourceReadBack | gentro-ui/services/games/database/database.go:310-336 | the source just stored reads back, and other (game, art type) keys read as before |
| EmulatorService.StandaloneMappings | gentro-ui/services/games/emulator/service.go:78-97 | the generated mappings are exactly one per (seeded emulator, supported platform) pair: each comes from such a pair and every such pair has its mapping |
| EmulatorService.CoreMappings | gentro-ui/services/games/emulator/service.go:105-126 | the generated mappings are exactly one per (core, supported platform) pair: each comes from such a pair and every such pair has its mapping |
| EmulatorService.GeneratedShape | gentro-ui/services/games/emulator/service.go:78-126 | a generated row has priority 0, the default flag of the default table, and the id platform_emulator or platform_emulator_core |
| EmulatorService.GeneratedRowsAgree | gentro-ui/services/games/emulator/service.go:78-126 | with separable names, two generated rows that share an id or a (platform, emulator, core) triple are the same row |
| EmulatorService.SeparableCoherent | gentro-ui/services/games/emulator/service.go:78-126 | with separable names the generated rows never clash on the primary key or the UNIQUE triple |
| EmulatorService.UpsertAllCoherent | gentro-ui/services/games/emulator/service.go:64-130 | upserting rows that never clash with each other or with the table succeeds, and the table ends holding exactly its old rows plus the upserted ones |
| EmulatorService.UpsertAll | gentro-ui/services/games/emulator/service.go:64-130 | the upserts stop at the first failure; emulators and cores are untouched, constraints preserved, and every stored mapping is an old one or one of the upserted rows |
| EmulatorService.RegeneratePlatformMappings | gentro-ui/services/games/emulator/service.go:64-130 | when emulator ids and platforms hold no '_' and every core has a non-empty core id, regeneration succeeds and the mappings afterwards are exactly the generated rows; on any success every mapping has the generated id, a default flag that agrees with the default table, and comes from an emulator or core that supports its platform |
| EmulatorService.RegenerateSingleDefault | gentro-ui/services/games/emulator/service.go:64-139 | after regeneration each platform has at most one default mapping, and it is the default table's choice |
| EmulatorService.SeedEmulators | gentro-ui/services/games/emulator/service.go:39-45 | seeding emulators changes neither cores nor mappings, preserves the constraints, and leaves every id outside the seed list reading as before |
| EmulatorService.SeedCores | gentro-ui/services/games/emulator/service.go:47-53 | seeding cores changes neither emulators nor mappings, preserves the constraints, and leaves every id outside the seed list reading as before |
| EmulatorService.SeededEmulatorsPresent | gentro-ui/services/games/emulator/service.go:39-45 | after seeding, every seeded id reads back the columns of its last seeded row, keeping is_available when the row was already stored |
| EmulatorService.SeededEmulatorsOrigin | gentro-ui/services/games/emulator/service.go:39-45 | every emulator row after seeding was stored before or carries the columns of a seeded row |
| EmulatorService.SeededCoresPresent | gentro-ui/services/games/emulator/service.go:47-53 | after seeding, every seeded core id reads back the columns of its last seeded row, keeping is_available when the row was already stored |
| EmulatorService.SeededCoresOrigin | gentro-ui/services/games/emulator/service.go:47-53 | every core row after seeding was stored before or carries the columns of a seeded row |
| EmulatorService.Initialize | gentro-ui/services/games/emulator/service.go:36-61 | from a store whose names are separable (no '_' in emulator ids or platforms, non-empty core ids) Initialize succeeds and the mappings are exactly the rows generated from the seeded tables; on any success the store is valid and every mapping is well named with a consistent default flag |
| EmulatorService.SeededSeparable | gentro-ui/services/games/emulator/service.go:36-53 | seeding the default tables keeps a separable store separable |
| EmulatorService.DefaultsSeparable | gentro-ui/services/games/emulator/defaults.go:19-86 | the seeded emulator ids and platforms hold no '_' and every seeded core has a non-empty core id |
| EmulatorService.SeededEmulatorMapped | gentro-ui/services/games/emulator/service.go:36-97 | every (seeded emulator, supported platform) pair has its mapping after Initialize |
| EmulatorService.SeededCoreMapped | gentro-ui/services/games/emulator/service.go:36-126 | every (seeded core, supported platform) pair has its mapping after Initialize |
| EmulatorService.InitializeMarksDefaults | gentro-ui/services/games/emulator/service.go:36-139 | from a separable store, every platform of the default table ends with a default mapping naming exactly its default emulator and core |
| EmulatorService.ProbeEmulator | gentro-ui/services/games/emulator/service.go:177-192 | a flatpak emulator is available iff it has a flatpak id that is installed; a native one iff its executable is on the PATH; other types never |
| EmulatorService.FindByID | gentro-ui/services/games/emulator/service.go:194-201 | the first emulator with the id, or None when no emulator has it |
| EmulatorService.DiscoverEmulators | gentro-ui/services/games/emulator/service.go:142-166 | every emulator's flag becomes its probe result, and a write happens exactly for the emulators whose flag changed |
| EmulatorService.DiscoverRetroArchCores | gentro-ui/services/games/emulator/service.go:203-231 | every RetroArch core's flag becomes whether its library file exists, other cores untouched; writes exactly for changed flags |
| EmulatorService.DiscoverAvailable | gentro-ui/services/games/emulator/service.go:142-175 | the emulator pass always runs; the core pass runs exactly when the refreshed RetroArch row is available |
| EmulatorService.GetEmulatorAndCore | gentro-ui/services/games/emulator/service.go:325-340 | "emulator not found" iff the emulator lookup fails; the core is present iff a non-empty core id resolves |
| EmulatorService.ResolveWith | gentro-ui/services/games/emulator/service.go:235-315 | a usable override wins, then the available platform default, then the first available pair, with the two distinct error messages |
| EmulatorService.ResolveEmulator | gentro-ui/services/games/emulator/service.go:235-315 | a resolved pair is always available, and resolution fails exactly when no override is usable and the platform has no available pair |
| EmulatorService.DefaultIsAvailablePair | gentro-ui/services/games/emulator/service.go:272-304 | the available platform default is itself one of the available pairs |
| EmulatorService.OverrideWins | gentro-ui/services/games/emulator/service.go:241-270 | an override whose emulator is available wins even over an available default; an unknown core id resolves to the emulator alone |
| Tokenizer.ParseCommandWithQuotes | gentro-ui/services/games/emulator/service.go:462-495 | no emitted token is empty |
| Tokenizer.RunSpan | gentro-ui/services/games/emulator/service.go:470-483 | a span opened and closed by the same quote character adds its contents, without the quotes, to the pending token |
| Tokenizer.RunUnterminated | gentro-ui/services/games/emulator/service.go:470-491 | an unterminated quote runs to the end of the input, still collecting characters |
| Tokenizer.RunSpace | gentro-ui/services/games/emulator/service.go:484-489 | an unquoted space ends the pending token, emitting it only when it is non-empty |
| Tokenizer.QuoteFreeIsWords | gentro-ui/services/games/emulator/service.go:462-495 | on input without quote characters the tokeniser is exactly strings.Split on spaces with the empty fields dropped |
| Tokenizer.WordsConcat | gentro-ui/services/games/emulator/service.go:462-495 | the fields of two texts joined by a space are the fields of each, concatenated |
| Tokenizer.FinishFrom | gentro-ui/services/games/emulator/service.go:462-495 | from an idle state the rest of a line adds exactly the tokens it yields on its own |
| Tokenizer.WordSpace | gentro-ui/services/games/emulator/service.go:484-489 | a non-empty plain word followed by a space becomes one token |
| Tokenizer.WordsSpace | gentro-ui/services/games/emulator/service.go:462-495 | quote-free text followed by a space contributes its space-separated fields |
| Tokenizer.QuotePathIfNeeded | gentro-ui/services/games/emulator/service.go:454-459 | a path without a space is returned as is; one with a space is %q-quoted |
| Tokenizer.QuotingKeepsOut | gentro-ui/services/games/emulator/service.go:454-459 | quoting introduces no character other than quotes, backslashes, lower-case letters and digits (the escapes %q may write), so a character of none of those kinds is in the quoted path only when it is in the path |
| Tokenizer.RunQuotePathSafe | gentro-ui/services/games/emulator/service.go:454-495 | the corrected quoting is read back by the tokeniser as exactly the original path |
| Tokenizer.RunQuotePathIfNeeded | gentro-ui/services/games/emulator/service.go:454-495 | the quoting as written reads back unchanged when the path has a space but no quote or backslash, or has neither space nor quote |
| Tokenizer.QuoteLost | gentro-ui/services/games/emulator/service.go:454-495 | a space-free path made of a quote-free word, a quote character, and a rest without spaces or that quote is passed unquoted and read back as one token with the quote dropped |
| Tokenizer.QuoteLostExample | gentro-ui/services/games/emulator/service.go:454-495 | "it's.nes" is passed unquoted and read back as "its.nes" |
| Tokenizer.EscapeKeptExample | gentro-ui/services/games/emulator/service.go:454-495 | "a b\c" is quoted with a doubled backslash that the tokeniser keeps |
| Tokenizer.EscapeBackslash | gentro-ui/services/games/emulator/service.go:454-459 | %q doubles a backslash |
| Tokenizer.QuotePathSafeRoundTrip | gentro-ui/services/games/emulator/service.go:454-495 | alone on a line, every non-empty path quoted the corrected way is read back as the single token it was |
| Command.SubstituteRenders | gentro-ui/services/games/emulator/service.go:399-404 | successive strings.ReplaceAll calls with brace-free values fill every placeholder of a template with its first binding and leave the literal text alone |
| Command.ReplaceAllSegments | gentro-ui/services/games/emulator/service.go:401-404 | one ReplaceAll of a placeholder replaces exactly the segments that are that placeholder |
| Command.CoreLibPath | gentro-ui/services/games/emulator/service.go:352-365 | a core library path exactly when a core is given and the emulator is RetroArch; it is $HOME/.var/app/org.libretro.RetroArch/config/retroarch/cores/<coreID>.so |
| Command.CoreLibIsProbedFile | gentro-ui/services/games/emulator/service.go:205-220 | the library passed to RetroArch is the same file core discovery probes for that core id |
| Command.CombineArgs | gentro-ui/services/games/emulator/service.go:367-375 | custom arguments are appended to the defaults with one space, replace empty defaults, and an empty custom string leaves the defaults |
| Command.CombineArgsWords | gentro-ui/services/games/emulator/service.go:367-375 | for quote-free arguments the combined string tokenises to the default words followed by the custom words |
| Command.FlatpakCommand | gentro-ui/services/games/emulator/service.go:394-408 | the flatpak command line has no empty token |
| Command.NativeCommand | gentro-ui/services/games/emulator/service.go:410-421 | the native command line has no empty token (its tokens are pinned by NativeCommandShape) |
| Command.BuildCommandWith | gentro-ui/services/games/emulator/service.go:343-392 | "emulator is nil" for a missing emulator, "emulator <id> is not available" for an unavailable one, and a command exactly otherwise, none of whose tokens is empty |
| Command.BuildCommand | gentro-ui/services/games/emulator/service.go:343-392 | succeeds exactly for a present, available emulator |
| Command.RetroArchSubstitution | gentro-ui/services/games/emulator/service.go:394-404 | the RetroArch template becomes "flatpak run <id> -L <quoted core> <args> <quoted rom>" |
| Command.FlatpakSubstitution | gentro-ui/services/games/emulator/service.go:394-404 | the plain flatpak template becomes "flatpak run <id> <args> <quoted rom>" |
| Command.RetroArchTokens | gentro-ui/services/games/emulator/service.go:462-495 | the substituted RetroArch line tokenises to flatpak, run, the id, -L, the core path, the argument words, then the ROM's tokens |
| Command.RetroArchCommand | gentro-ui/services/games/emulator/service.go:343-408 | BuildCommand for RetroArch with a core yields ["flatpak","run",id,"-L",core path] + argument words + the tokens of the quoted ROM path |
| Command.FlatpakCommandShape | gentro-ui/services/games/emulator/service.go:343-408 | BuildCommand for a plain flatpak emulator yields ["flatpak","run",id] + argument words + the ROM's tokens, whatever core is given |
| Command.NativeSubstitution | gentro-ui/services/games/emulator/service.go:410-421 | the native template "{executable} {args} {rom}" becomes "<executable> <args> <quoted rom>" |
| Command.NativeCommandShape | gentro-ui/services/games/emulator/service.go:343-421 | BuildCommand for a native emulator on that template yields [executable] + argument words + the ROM's tokens, whatever core is given |
| Command.SafeRomRoundTrip | gentro-ui/services/games/emulator/service.go:394-495 | with the corrected quoting the last token of a RetroArch command is exactly the ROM path, whatever spaces, quotes or backslashes it holds |
| Command.PercentQRomRoundTrip | gentro-ui/services/games/emulator/service.go:394-495 | with the shipped quoting the last token is the ROM path when the path has a space but nothing %q escapes, or no space and no quote |
| Command.RomQuoteLost | gentro-ui/services/games/emulator/service.go:394-495 | with the shipped quoting a space-free ROM path holding one quote character (such as "it's.nes") is launched with that quote dropped ("its.nes") as the last argument |
| Instances.DecodeValue | gentro-ui/services/games/database/database.go:541-547 | a stored value is its JSON decoding when it parses, and the raw text otherwise |
| Instances.ApplyMeta | gentro-ui/services/games/database/database.go:540-549 | the merged metadata has exactly the keys already present plus those of rows whose value is not NULL |
| Instances.GetInstances | gentro-ui/services/games/database/database.go:477-562 | no two returned instances share an id |
| Instances.CollectDistinct | gentro-ui/services/games/database/database.go:512-555 | folding the joined rows into the id-keyed map never yields two instances with one id |
| Instances.GroupCollect | gentro-ui/services/games/database/database.go:512-549 | all joined rows of one instance add exactly that instance's columns with its metadata rows applied |
| Instances.GetInstancesIsReference | gentro-ui/services/games/database/database.go:477-562 | with ids unique in the table, the result is, per selected instance in table order, its columns with its custom metadata applied |
| Instances.GetInstancesFilters | gentro-ui/services/games/database/database.go:492-503 | every returned instance satisfies the installed/source/platform filter, and every stored instance that satisfies it is returned |
| Fetcher.NewFetcher | gentro-ui/services/games/metadata/fetcher.go:32-47 | a positive worker count is kept and a non-positive one becomes 2; the fetcher starts stopped with an empty queue, no resolvers and no cancel handles |
| Fetcher.RegisterResolver | gentro-ui/services/games/metadata/fetcher.go:50-53 | the resolver is appended after those already registered and nothing else changes |
| Fetcher.Start | gentro-ui/services/games/metadata/fetcher.go:56-71 | the fetcher is running afterwards; starting a running fetcher changes nothing; only the running flag ever changes |
| Fetcher.Stop | gentro-ui/services/games/metadata/fetcher.go:74-94 | stopping a stopped fetcher changes nothing; a running fetcher whose channel is still open stops, fires every registered cancel handle, forgets them all and closes its channel; a running fetcher whose channel is already closed panics with "close of closed channel" |
| Fetcher.Queue | gentro-ui/services/games/metadata/fetcher.go:97-113 | "fetcher is not running" when stopped; a panic on a closed channel; "queue is full" at capacity 100; otherwise the request joins the back of the queue |
| Fetcher.Receive | gentro-ui/services/games/metadata/fetcher.go:133-135 | a worker takes the oldest queued request, and only when one is queued |
| Fetcher.Cancel | gentro-ui/services/games/metadata/fetcher.go:116-125 | the instance's handle, if any, is fired and removed; nothing else changes |
| Fetcher.ChainIsReference | gentro-ui/services/games/metadata/fetcher.go:162-200 | the resolver loop equals a reference: the first resolver reached that succeeds answers, sourcesTried naming every resolver invoked up to it |
| Fetcher.FirstSuccessWins | gentro-ui/services/games/metadata/fetcher.go:162-194 | uncancelled, the first succeeding resolver answers and no later resolver is invoked |
| Fetcher.AllFailTriesAll | gentro-ui/services/games/metadata/fetcher.go:162-200 | uncancelled, when every resolver fails all of them are tried in order |
| Fetcher.CancelledStopsBefore | gentro-ui/services/games/metadata/fetcher.go:165-170 | a context cancelled before resolver k means resolver k and later ones are never invoked |
| Fetcher.LocalCache | gentro-ui/services/games/metadata/fetcher.go:208-222 | the local cache resolver is named "local_cache" and fails every request |
| Fetcher.LocalCacheTransparent | gentro-ui/services/games/metadata/fetcher.go:162-222 | a local cache in front of a chain adds its name to sourcesTried and changes no outcome |
| Fetcher.ProcessRequest | gentro-ui/services/games/metadata/fetcher.go:141-201 | a request registers a new handle under its instance id and, when done, fires it and removes the id's entry, leaving queue, resolvers and running flag alone |
| Fetcher.CancelDuringRequest | gentro-ui/services/games/metadata/fetcher.go:116-154 | cancelling an instance while its request runs fires exactly that request's handle |
| Fetcher.StartIdempotent | gentro-ui/services/games/metadata/fetcher.go:56-62 | starting twice is starting once |
| Fetcher.StopIdempotent | gentro-ui/services/games/metadata/fetcher.go:74-79 | a completed Stop followed by another Stop is that Stop |
| Fetcher.StoppedRefuses | gentro-ui/services/games/metadata/fetcher.go:74-103 | after a completed Stop every Queue is refused as not running |
| Fetcher.QueueThenReceive | gentro-ui/services/games/metadata/fetcher.go:97-135 | two accepted requests are received in the order they were queued |
| Fetcher.FreshFetcherAccepts | gentro-ui/services/games/metadata/fetcher.go:32-113 | a new fetcher, once started, accepts a request |
| Fetcher.RestartPanics | gentro-ui/services/games/metadata/fetcher.go:56-113 | start, stop, start again, then Queue sends on the closed channel and panics |
| Fetcher.RestartStopPanics | gentro-ui/services/games/metadata/fetcher.go:56-94 | start, stop, start again, then the second Stop closes the closed channel and panics |
| Fetcher.StartFresh | gentro-ui/services/games/metadata/fetcher.go:56-71 | the corrected start: running afterwards, with an open channel whenever it was stopped |
| Fetcher.StartFreshNeverPanics | gentro-ui/services/games/metadata/fetcher.go:56-113 | with the corrected start, a restarted fetcher accepts a request and stops again without a panic |
| Igdb.PlatformIDsInjective | gentro-ui/services/games/metadata/igdb/client.go:19-34 | no two platform names in the IGDB platform table share an IGDB id |
| Igdb.NewClient | gentro-ui/services/games/metadata/igdb/client.go:101-107 | a new client keeps its credentials and holds no access token |
| Igdb.Authenticate | gentro-ui/services/games/metadata/igdb/client.go:110-144 | a held, unexpired token is reused without a request; otherwise a token is requested and the client stores it with expiry now + expires_in, or keeps its state and reports the error |
| Igdb.TokenReused | gentro-ui/services/games/metadata/igdb/client.go:110-113 | a token obtained at one moment is reused with no new request at every later moment before it expires |
| Igdb.Query | gentro-ui/services/games/metadata/igdb/client.go:220-263 | every query authenticates first; an authentication error is the query's error, and otherwise the decoded reply is the answer (GetScreenshots, GetArtworks, GetLogos) |
| Igdb.First | gentro-ui/services/games/metadata/igdb/client.go:159-168 | a lookup that expects one record answers the first record, the given not-found error on an empty answer, or the query's error |
| Igdb.SearchGame | gentro-ui/services/games/metadata/igdb/client.go:147-169 | the first game of the answer, or "no game found for '<name>' on platform <id>" when the answer is empty |
| Igdb.GetGameByID | gentro-ui/services/games/metadata/igdb/client.go:172-193 | the first game of the answer, or "game not found with ID <id>" when the answer is empty |
| Igdb.GetCover | gentro-ui/services/games/metadata/igdb/client.go:196-217 | the first cover of the answer, or "cover not found with ID <id>" when the answer is empty |
| Igdb.ByIDs | gentro-ui/services/games/metadata/igdb/client.go:266-303 | an empty id list answers nothing at once without authenticating; otherwise it is an authenticated query |
| Igdb.GetCompanies | gentro-ui/services/games/metadata/igdb/client.go:266-283 | an empty id list answers nothing without a request; a non-empty one authenticates and answers the company reply, or the authentication error |
| Igdb.GetGenres | gentro-ui/services/games/metadata/igdb/client.go:286-303 | an empty id list answers nothing without a request; a non-empty one authenticates and answers the genre reply, or the authentication error |
| Igdb.EscapeQuery | gentro-ui/services/games/metadata/igdb/client.go:400-414 | the result holds exactly the characters of the input other than '"' and '\', and is no longer than it |
| Igdb.EscapeQueryAppend | gentro-ui/services/games/metadata/igdb/client.go:400-414 | escaping works character by character: escaping a concatenation is concatenating the escapes |
| Igdb.EscapeQueryKeepsClean | gentro-ui/services/games/metadata/igdb/client.go:400-414 | text without '"' or '\' is left unchanged |
| Igdb.EscapeQueryIdempotent | gentro-ui/services/games/metadata/igdb/client.go:400-414 | escaping twice is escaping once |
| Igdb.JoinInts | gentro-ui/services/games/metadata/igdb/client.go:417-426 | the decimal forms of the numbers, comma-separated, and "" for no numbers |
| Igdb.JoinIntsRoundTrip | gentro-ui/services/games/metadata/igdb/client.go:417-426 | splitting the joined list on commas and parsing each part gives back every number |
| Igdb.ExpandImageURL | gentro-ui/services/games/metadata/igdb/resolver.go:191-209 | the value is the URL with "https:" before a leading "//", the first "t_thumb" turned into "t_720p", and a final ".jpg" turned into ".png"; so the result never ends in ".jpg", a protocol-relative URL gains "https://", and a URL needing no change is returned as is |
| Igdb.WithScheme | gentro-ui/services/games/metadata/igdb/resolver.go:193-195 | "https:" is put before a URL starting with "//" and no other |
| Igdb.PngSuffix | gentro-ui/services/games/metadata/igdb/resolver.go:202-206 | a final ".jpg" becomes ".png" with the rest kept; any other string is unchanged |
| Igdb.ScanLogosLast | gentro-ui/services/games/metadata/igdb/resolver.go:146-155 | the scan keeps, for each of the types 7, 5 and 6, the last logo of that type |
| Igdb.SelectLogo | gentro-ui/services/games/metadata/igdb/resolver.go:157-168 | the chosen logo is one of the logos and of type 5, 6 or 7, and there is none exactly when no logo has such a type |
| Igdb.LogoPriority | gentro-ui/services/games/metadata/igdb/resolver.go:144-168 | colour beats white beats black, and within a type the last logo listed wins |
| Igdb.GenreNames | gentro-ui/services/games/metadata/igdb/resolver.go:94-96 | the genre names in the order the genres were answered |
| Igdb.ArtURLs | gentro-ui/services/games/metadata/igdb/resolver.go:107-173 | cover, screenshot, artwork and logo are present exactly when their lookup succeeded with something to show, holding the expanded URL of the cover, the first screenshot, the first artwork or the chosen logo |
| Igdb.Assemble | gentro-ui/services/games/metadata/igdb/resolver.go:79-178 | name and summary come from the game, a release date only when it is positive, no developer or publisher, platform metadata for the requested platform only |
| Igdb.Resolve | gentro-ui/services/games/metadata/igdb/resolver.go:56-60 | an unknown platform fails with "unsupported platform: <platform>" |
| Igdb.ResolveFailsOnlyEarly | gentro-ui/services/games/metadata/igdb/resolver.go:49-187 | Resolve fails exactly when the platform is unknown or the search fails; the other lookups never make it fail |
| Igdb.SupportedResolves | gentro-ui/services/games/metadata/igdb/resolver.go:37-187 | a supported request whose search answers a game resolves to the result assembled from that game |
| Emulated.AnyExtension | gentro-ui/services/games/sources/emulated/emulated.go:197-203 | some listed extension, lower-cased, equals the given extension |
| Emulated.IsROMFile | gentro-ui/services/games/sources/emulated/emulated.go:191-204 | true exactly when the platform is configured and the path's lower-cased extension equals a lower-cased listed extension |
| Emulated.IsROMFileIgnoresCase | gentro-ui/services/games/sources/emulated/emulated.go:191-204 | paths whose extensions agree up to ASCII case are both ROMs or both not |
| Emulated.ParseGameName | gentro-ui/services/games/sources/emulated/emulated.go:301-311 | the name has no '_' or '-' and no white space (in the sense of unicode.IsSpace) at either end |
| Emulated.ParseGameNameWithin | gentro-ui/services/games/sources/emulated/emulated.go:301-311 | the name is a slice of the file name without its final extension, with '_' and '-' read as spaces, and every character of the stem outside it is white space, '_' or '-' |
| Emulated.ParseGameNamePlain | gentro-ui/services/games/sources/emulated/emulated.go:301-311 | a stem without white space, '_' or '-' is its own game name |
| Emulated.TrimSpacedKeepsOut | gentro-ui/services/games/sources/emulated/emulated.go:308-310 | trimming the spaced stem introduces no '_' or '-' |
| Emulated.Sanitize | gentro-ui/services/games/sources/emulated/emulated.go:314-321 | each character is lower-cased, and becomes '_' when the lower-cased character is ' ', '/' or '\'; so the result has the input's length and holds only lower-case characters other than those three |
| Emulated.SanitizeIdempotent | gentro-ui/services/games/sources/emulated/emulated.go:314-321 | sanitizing twice is sanitizing once |
| Emulated.GameID | gentro-ui/services/games/sources/emulated/emulated.go:295-298 | a game id is "game_<platform>_" followed by the sanitized name |
| Emulated.GameIDCollides | gentro-ui/services/games/sources/emulated/emulated.go:295-321 | two names get the same game id on a platform exactly when they sanitize alike |
| Emulated.InstanceID | gentro-ui/services/games/sources/emulated/emulated.go:289-292 | the instance id is "file_" followed by the first 16 characters of the hash |
| Emulated.Availability | gentro-ui/services/games/sources/emulated/emulated.go:248-265 | a cached entry wins, even when false; with no entry the answer is whether an injected service has some available pair |
| Emulated.CachedFalseWins | gentro-ui/services/games/sources/emulated/emulated.go:250-253 | a cached false is returned whatever the service would now say |
| Emulated.PopulateCache | gentro-ui/services/games/sources/emulated/emulated.go:356-389 | without a service nothing changes; otherwise every configured platform gets true exactly when it has an available default or some available pair, and other cached entries are kept |
| Emulated.PopulateAgreesOnDemand | gentro-ui/services/games/sources/emulated/emulated.go:248-389 | after population a platform's cached value equals the on-demand answer |
| Emulated.SetEmulatorService | gentro-ui/services/games/sources/emulated/emulated.go:350-353 | the service is installed and every configured platform's availability is the service's answer |
| Emulated.CreateInstance | gentro-ui/services/games/sources/emulated/emulated.go:207-245 | a hash failure is "failed to hash file: ..."; otherwise the instance has the derived ids, source "emulated", is installed at its path, carries the hash as source id and file hash, "emulator.available" from the cache and the parsed display name |
| Emulated.AddManualROM | gentro-ui/services/games/sources/emulated/emulated.go:324-347 | "unknown platform", then "failed to stat file", then "file is not a valid ROM for platform ..." in that order; once all three checks pass the result is CreateInstance's, and a success is a ROM of a configured platform |
| Emulated.Launch | gentro-ui/services/games/sources/emulated/emulated.go:397-460 | "emulator service not configured" without a service; "no emulator available for <platform>: ..." when resolution fails; otherwise the command BuildCommand makes for the resolved pair with the instance's stored custom arguments ("" when none are stored), none of whose tokens is empty |
| Steam.PathsNonEmpty | gentro-ui/services/games/sources/steam/steam.go:236-240 | every Linux candidate path and the macOS path is non-empty |
| Steam.FirstExisting | gentro-ui/services/games/sources/steam/steam.go:242-248 | the first candidate that exists, and an error exactly when none exists |
| Steam.DetectSteamPath | gentro-ui/services/games/sources/steam/steam.go:220-266 | Linux takes the first existing of its three candidates; Windows is "not yet implemented"; macOS needs its one path; any other OS is "unsupported platform: <os>" |
| Steam.ConfigString | gentro-ui/services/games/sources/steam/steam.go:42-48 | a configuration value is used only when it is a non-empty string |
| Steam.LocateSteam | gentro-ui/services/games/sources/steam/steam.go:42-59 | a configured install path wins, then the current one; without either the detected path, or its error wrapped as "failed to detect Steam installation: ..." |
| Steam.Init | gentro-ui/services/games/sources/steam/steam.go:40-72 | the install path is the configured one, else the current one, else the detected one, and a detection failure is "failed to detect Steam installation: ..."; Init succeeds exactly when that path is found, exists and the art cache is created; a missing path is "Steam not found at <path>" and a mkdir failure "failed to create art cache path: ..."; on success the art cache is under $HOME, a non-empty configured API key replaces the current one and no other configuration changes |
| Steam.IsAppManifest | gentro-ui/services/games/sources/steam/steam.go:122-124 | a manifest name starts with "appmanifest_" and ends with ".acf" |
| Steam.ManifestNames | gentro-ui/services/games/sources/steam/steam.go:122-124 | the accepted names are exactly "appmanifest_<id>.acf" for any id |
| Steam.GetString | gentro-ui/services/games/sources/steam/steam.go:340-350 | a string value as it is, a nested map formatted, and "" for a missing key or any other type |
| Steam.GetInt64 | gentro-ui/services/games/sources/steam/steam.go:353-367 | a decimal string that parses as an int64 gives its value, one that does not gives 0, an integer passes through, and anything else or a missing key is 0 |
| Steam.GetInt64Decimal | gentro-ui/services/games/sources/steam/steam.go:353-359 | a size stored as decimal text is read back as written |
| Steam.FindAppState | gentro-ui/services/games/sources/steam/steam.go:283-289 | the app state is a map-valued root entry, the first the iteration order reaches; there is none exactly when no root entry is a map |
| Steam.FindAppStateUnique | gentro-ui/services/games/sources/steam/steam.go:283-289 | with a single map-valued root entry, that entry is the app state whatever the iteration order |
| Steam.SourceDataOf | gentro-ui/services/games/sources/steam/steam.go:305-312 | source data holds every app-state field, with displayName set to the name when the name is non-empty |
| Steam.ParseAppManifest | gentro-ui/services/games/sources/steam/steam.go:269-337 | open, parse, missing-AppState and empty-appid failures are errors; otherwise id "steam_<appid>", game and source id appid, platform and source "steam", install path <dir>/common/<installdir>, size SizeOnDisk, installed |
| Steam.CollectManifests | gentro-ui/services/games/sources/steam/steam.go:95-116 | at most one instance is kept per directory entry |
| Steam.CollectAppend | gentro-ui/services/games/sources/steam/steam.go:95-116 | collecting keeps directory order: a split listing collects to the instances of its first part followed by those of its second |
| Steam.CollectOne | gentro-ui/services/games/sources/steam/steam.go:96-115 | a single entry yields its parsed instance exactly when it is a manifest file that parses, and nothing otherwise |
| Steam.CollectSound | gentro-ui/services/games/sources/steam/steam.go:96-115 | every listed instance comes from a manifest file entry that parsed |
| Steam.CollectComplete | gentro-ui/services/games/sources/steam/steam.go:96-115 | every manifest file entry that parses is listed |
| Steam.CollectedAreSteam | gentro-ui/services/games/sources/steam/steam.go:95-116 | every listed instance is an installed Steam game with a "steam_" id and a non-empty source id |
| Steam.GetInstalledInstances | gentro-ui/services/games/sources/steam/steam.go:81-119 | no steamapps directory gives no games; an unreadable one is "failed to read steamapps directory: ..."; otherwise the parsed manifests of the listing |
| Steam.CdnFile | gentro-ui/services/games/sources/steam/steam.go:162-177 | header, library, hero, logo and icon map to their CDN files; any other type falls back to header.jpg |
| Steam.ArtAppID | gentro-ui/services/games/sources/steam/steam.go:134-139 | the app id is the instance id without its "steam_" prefix, and an empty one is "invalid instance ID format: <id>" |
| Steam.ArtAppIDRejects | gentro-ui/services/games/sources/steam/steam.go:134-139 | only "" and "steam_" are rejected; an id without the prefix is used as an app id as it is |
| Steam.FetchAndCacheArt | gentro-ui/services/games/sources/steam/steam.go:160-217 | success exactly on a 200 reply whose body reads and whose cache directory is created, labelled "image/jpeg"; a non-200 status is "Steam CDN returned status <n> for <type>" |
| Steam.GetGameArt | gentro-ui/services/games/sources/steam/steam.go:133-157 | the id check first; a cached file is served as "image/jpeg"; only a missing cache file fetches from the CDN URL for the art type; another read error is "failed to read art: ..." |
| Steam.OpenerCommand | gentro-ui/services/games/sources/steam/steam.go:381-389 | macOS uses open, Windows rundll32, anything else xdg-open, always on the URL as last argument |
| Steam.Launch | gentro-ui/services/games/sources/steam/steam.go:370-396 | an empty source id is "no source ID for Steam instance"; otherwise the opener runs on "steam://rungameid/<source id>" |
| Steam.ManifestInstanceUsable | gentro-ui/services/games/sources/steam/steam.go:133-139 | every instance a manifest yields passes GetGameArt's id check with its appid and launches on that appid's URL |
| Registry.NewRegistry | gentro-ui/services/games/source.go:53-57 | a new registry holds no sources |
| Registry.RegisterWithConfig | gentro-ui/services/games/source.go:69-75 | Init runs first; its error is returned with the registry untouched; otherwise the initialised source is stored under its name, replacing any of that name, and no other entry changes |
| Registry.Register | gentro-ui/services/games/source.go:60-66 | registration with a nil configuration; a failed Init leaves the registry untouched, a successful one makes Get of the source's name answer it |
| Registry.Get | gentro-ui/services/games/source.go:78-81 | a source exactly for a registered name, and the one registered under it |
| Registry.RegisterThenGet | gentro-ui/services/games/source.go:69-81 | after a successful registration the new source answers for its name and every other name answers as before |
| Registry.ReRegisterReplaces | gentro-ui/services/games/source.go:60-66 | registering a second source of the same name keeps only the second |
| Registry.GetNames | gentro-ui/services/games/source.go:89-91 | every registered name exactly once, as many names as sources |
| Registry.GetAll | gentro-ui/services/games/source.go:84-86 | one source per registered name, every registered source included and nothing else |
| Monitor.OnTick | gentro-ui/services/games/games.go:1017-1036 | a failed poll is skipped; the first positive poll emits "running"; a negative poll more than 10 s after the last sighting, once running has been seen, emits "stopped" and ends the loop; at most one status per tick |
| Monitor.RunShape | gentro-ui/services/games/games.go:1009-1037 | over any ticks "running" is emitted at most once and first, "stopped" at most once and only after it, and the loop ends exactly when "stopped" is emitted |
| Monitor.InitialTrace | gentro-ui/services/games/games.go:1009-1037 | from the start the statuses emitted are nothing, "running", or "running" then "stopped" |
| Monitor.ShortGapsKeepRunning | gentro-ui/services/games/games.go:1013-1035 | negative or failed polls within 10 s of the last sighting never stop a running game |
| Monitor.LongGapStops | gentro-ui/services/games/games.go:1031-1034 | a negative poll more than 10 s after the last sighting stops a game that has been seen running |
| ArtRoutes.GetArtURL | gentro-ui/services/games/games.go:734-739 | an empty route is "service route not configured"; otherwise the URL is <route>/art/<instance id>/<art type> |
| ArtRoutes.ParseArtPath | gentro-ui/services/games/games.go:742-753 | fewer than three '/'-separated segments after one leading '/' is a bad request; otherwise the second and third segments, neither containing '/' |
| ArtRoutes.ParseAnyPrefix | gentro-ui/services/games/games.go:742-753 | "/<any>/<id>/<type>" parses to (id, type) whatever the first segment is |
| ArtRoutes.ArtURLRoundTrip | gentro-ui/services/games/games.go:734-753 | with the route stripped, the handler recovers the id and art type of every URL GetArtURL builds from '/'-free parts |
| ArtRoutes.ShortPathRejected | gentro-ui/services/games/games.go:746-750 | a path of two segments is rejected |
| ArtRoutes.ServeArt | gentro-ui/services/games/games.go:742-783 | 400 for a short path; 200 exactly when the instance is found, its source is registered and the source has the art, answering the source's bytes and content type; 500 when the instance lookup fails, 404 when the instance is missing, 500 when its source is not registered and 404 when the source has no such art |
| ArtRoutes.ServeArtErrorCauses | gentro-ui/services/games/games.go:757-778 | read the other way: a 500 answer means the instance lookup failed or its source is not registered, and a 404 answer means the instance or its art is missing |
| Monitor.NormalizeWinePath | gentro-ui/services/games/games.go:1041-1049 | the drive prefix is dropped exactly when the path is longer than two characters and its second is ':', and every remaining character is kept with '\' turned into '/' |
| Monitor.UnixPathUnchanged | gentro-ui/services/games/games.go:1041-1049 | a path without a drive prefix or backslash is returned unchanged |
| Monitor.WinePathRecovered | gentro-ui/services/games/games.go:1039-1049 | normalising the Wine form "X:\\a\\b" of a non-empty Unix path "/a/b" gives that path back |
| Monitor.AnyInPath | gentro-ui/services/games/games.go:1056-1070 | true exactly when some listed process runs from the install path |
| Monitor.IsProcessRunningInPath | gentro-ui/services/games/games.go:1051-1073 | a failed process listing is an error; otherwise true exactly when some process's executable starts with the install path or its normalised command line contains it |
| Monitor.WineGameSeen | gentro-ui/services/games/games.go:1062-1068 | a Proton process whose command line is the Wine form of the install path counts as running even when its executable cannot be read |
| Monitor.RunningReportedIffSeen | gentro-ui/services/games/games.go:1009-1037 | from a monitor that has not yet seen the game, "running" is emitted exactly when some poll finds the game running |
| Monitor.SteamStatusesAsWritten | gentro-ui/services/games/sources/steam/steam.go:398-405 | a successful Steam launch as shipped reports neither "running" nor "stopped" |
| Monitor.SteamRunningUnreported | gentro-ui/services/games/sources/steam/steam.go:398-405 | even when a poll would find the game running, the shipped Steam launch never reports "running" |
| Monitor.SteamStatuses | gentro-ui/services/games/games.go:992-1037 | a Steam launch watched by the monitor reports "launching", then possibly "running" and then "stopped", with "running" exactly when some poll finds the game |
| Library.StrField | gentro-ui/services/games/games.go:857-857 | the `m[k].(string)` read: a non-empty result is the string stored under the key, and any stored string is returned |
| Library.DisplayName | gentro-ui/services/games/games.go:855-875 | a non-empty custom "name" wins, then a non-empty source "displayName", then the file name without its extension, and "" when all three are empty |
| Library.DisplayNameFromSource | gentro-ui/services/games/games.go:861-872 | without a custom name the source's display name decides, falling back to the file stem |
| Library.EmulatedDisplayName | gentro-ui/services/games/games.go:855-875 | a ROM instance from the emulated source shows its parsed game name, or the raw file stem when parsing leaves nothing |
| Library.SteamDisplayName | gentro-ui/services/games/games.go:855-875 | a Steam instance shows the manifest's name, else a manifest "displayName", else the stem of its install directory |
| Library.ApplyResolved | gentro-ui/services/games/games.go:130-148 | each text field is overwritten only by a non-empty fetched value, the release date only by a present one and genres only by a non-empty list; id, platforms and art are untouched |
| Library.ApplyResolvedIdempotent | gentro-ui/services/games/games.go:130-148 | merging the same metadata twice equals merging it once, and empty metadata leaves the game unchanged |
| Library.CacheDoc | gentro-ui/services/games/games.go:156-167 | the cached document holds the name, description, developer, publisher, genres and resolver name, and a release date exactly when one was fetched |
| Library.ApplyCached | gentro-ui/services/games/games.go:817-829 | a non-empty cached name overwrites; any cached string, the empty one included, overwrites description, developer and publisher; no other field changes |
| Library.MergesDiffer | gentro-ui/services/games/games.go:130-148 | an empty fetched description keeps the game's description while the same metadata applied from the cache clears it; with all four texts non-empty both merges agree |
| Library.SetStatus | gentro-ui/services/games/games.go:176-186 | only the named instance's metadata status changes; games, cache and other instances are untouched and well-formedness is kept |
| Library.OnMetadataResolved | gentro-ui/services/games/games.go:118-191 | a missing game changes nothing; otherwise the merged name, description, release date, developer and publisher are written back while the stored genres stay as they were, the full document (genres included) is cached under (game, resolver), the instance is marked completed with "Resolved from <resolver>" with nothing else of it changed, and every other game and instance is untouched |
| Library.UpdateGame | gentro-ui/services/games/database/database.go:598-611 | the update writes name, description, release date, developer and publisher and keeps the stored genres, platforms and art |
| Library.ApplyCachedMetadata | gentro-ui/services/games/games.go:808-853 | an error "game not found: <id>" exactly when the game is missing; otherwise the cached merge of that game, a completed "Using cached metadata" status on the instance, and every other game, every other instance and the cache untouched |
| Library.RequestFor | gentro-ui/services/games/games.go:904-913 | the fetch request carries the instance's game, id, source, platform and file hash, the display name and priority 1 |
| Library.RenameGame | gentro-ui/services/games/games.go:788-805 | only the named game's name changes: every other game, the instances and the cache are untouched |
| Library.QueueMetadataFetch | gentro-ui/services/games/games.go:877-933 | the game is renamed to the display name; cached IGDB metadata for a stored game is then merged into the renamed game, the instance marked completed with "Using cached metadata" and the fetcher left alone; otherwise the instance is marked fetching and exactly RequestFor(instance) is handed to the fetcher; on both paths every other game and instance and the cache are untouched |
| Library.SendFetch | gentro-ui/services/games/games.go:903-933 | the fetch path of queueMetadataFetch: the instance, and nothing else, is marked fetching, and exactly RequestFor(instance) is made and handed to the fetcher |
| Library.MergeFields | gentro-ui/services/games/games.go:618-626 | the merged metadata has both key sets, incoming values win and stored values are kept for the other keys |
| Library.SyncExisting | gentro-ui/services/games/games.go:588-651 | the install path, size and installed flag are taken from the listing; custom metadata is merged exactly when the listing has some and some incoming key is new or differs; nothing else changes |
| Library.SyncKeepsIncoming | gentro-ui/services/games/games.go:591-635 | after the sync every non-nil incoming metadata value is stored |
| Library.PlaceholderGame | gentro-ui/services/games/games.go:563-570 | the new game has the instance's game id, its display name and its platform |
| Library.RefreshNew | gentro-ui/services/games/games.go:554-586 | a new instance is stored without its source data and otherwise as reported, its game exists afterwards and no other instance changes; it is answered from the IGDB cache (completed, no request) exactly when the cache holds its game, and otherwise marked fetching with RequestFor(instance) sent |
| Library.Persisted | gentro-ui/services/games/database/database.go:389-427 | a stored instance has no source data and every other field as given |
| Library.StoreNew | gentro-ui/services/games/games.go:554-575 | the instance is stored without its source data, with a placeholder game only when its game is not stored yet; the metadata cache is untouched |
| Library.RefreshExisting | gentro-ui/services/games/games.go:587-665 | a completed instance is synced and not queued; an unfinished one is synced and then answered from the IGDB cache exactly when its stored game is cached, else marked fetching and queued as the stored row, without source data, with its install fields refreshed; no other instance changes |
| Library.Requeue | gentro-ui/services/games/games.go:587-663 | an existing instance is synced and its stored row queued: the cache answers exactly when its stored game is cached in IGDB form, otherwise the request for the stored row is sent; the synced fields are kept and no other instance changes |
| Library.QueuedCopy | gentro-ui/services/games/games.go:652-663 | the re-queued instance is the stored row with the listing's install path, size and installed flag, its metadata as stored and no source data |
| Library.RequeuedName | gentro-ui/services/games/games.go:652-663 | a re-queued instance is fetched under its custom name, else the stem of its file name, never under a source display name |
| Library.RefreshInstance | gentro-ui/services/games/games.go:546-666 | a new instance is stored and answered from the cache or sent for a fetch as RefreshNew states; an existing one is synced, and an unfinished one answered from the cache or re-queued as RefreshExisting states; a request reaches the fetcher exactly when one is made, no other instance changes, no game is lost and the library stays well formed |
| Library.RefreshBatch | gentro-ui/services/games/games.go:546-666 | every instance of a source's listing is stored afterwards, nothing stored is lost and the library stays well formed |
| Library.RefreshGames | gentro-ui/services/games/games.go:534-671 | every instance of every successful listing is stored afterwards, failed listings are skipped, nothing stored is lost and the library stays well formed |
| Ordering.LexTransitive | gentro-ui/services/games/games.go:419-419 | the strings.Compare order on names is transitive |
| Ordering.LexTotal | gentro-ui/services/games/games.go:419-419 | two different names are ordered one way or the other |
| Ordering.LexAsymmetric | gentro-ui/services/games/games.go:419-419 | no two names are each less than the other |
| Ordering.KeyOf | gentro-ui/services/games/games.go:417-426 | the key is numeric exactly for "fileSize" and "dateAdded"; every other field, "lastPlayed" included, compares lower-cased names |
| Ordering.LessAsymmetric | gentro-ui/services/games/games.go:414-432 | the comparator never holds both ways, in either order |
| Ordering.NotLessTransitive | gentro-ui/services/games/games.go:414-432 | "not less than" is transitive for every field and order, so the comparator is a strict weak order |
| Ordering.Insert | gentro-ui/services/games/games.go:414-432 | inserting keeps every element and adds exactly the new one |
| Ordering.InsertSorted | gentro-ui/services/games/games.go:414-432 | inserting into a sorted listing leaves it sorted |
| Ordering.SortBy | gentro-ui/services/games/games.go:414-432 | the result is a permutation of the input in which no entry is less than one before it |
| Ordering.SortGames | gentro-ui/services/games/games.go:409-435 | no options or an empty field return the listing unchanged; otherwise a sorted permutation |
| Ordering.DescIsReversedAsc | gentro-ui/services/games/games.go:428-431 | a listing is sorted descending exactly when its reverse is sorted ascending |
| Ordering.Sub64 | gentro-ui/services/games/games.go:421-421 | int64 subtraction: always within the int64 range and exact when the true difference fits |
| Ordering.FileSizeCompareExact | gentro-ui/services/games/games.go:420-421 | for file sizes, which are non-negative int64 values, the wrapping difference has the sign of the exact comparison |
| Ordering.FileSizeCompareWraps | gentro-ui/services/games/games.go:420-421 | outside that range the wrapping difference gets the order wrong |
| Listing.GetDefaultFilterConfig | gentro-ui/services/games/games.go:469-489 | no installed-only, search or genre filter; exactly one source filter, steam's excludeTools, from the configuration or true without one |
| Listing.DefaultFilterAgrees | gentro-ui/services/games/games.go:320-328 | without a configuration the advertised default filter equals the one GetGames uses when given none |
| Listing.Group | gentro-ui/services/games/games.go:443-447 | one source's instances are exactly the instances with that source |
| Listing.Outputs | gentro-ui/services/games/games.go:450-463 | an instance is in the output exactly when some source's filtered group holds it |
| Listing.ApplySourceFilters | gentro-ui/services/games/games.go:438-466 | an empty list comes back as it is; otherwise exactly the instances the groups' filters output, and every instance of an unregistered source is kept |
| Listing.GroupedPermutes | gentro-ui/services/games/games.go:443-447 | concatenating the groups of every source loses and duplicates nothing |
| Listing.PassThroughKeepsAll | gentro-ui/services/games/games_filter_test.go:36-60 | with filters that keep everything the output is a reordering of the input with the same length |
| Listing.SearchIgnoresCase | gentro-ui/services/games/games.go:374-377 | searching for a text and for its lower-cased form keeps the same games |
| Listing.SearchFindsSubstring | gentro-ui/services/games/games.go:374-377 | a name containing the search text verbatim always matches |
| Listing.GenreMatch | gentro-ui/services/games/games.go:380-394 | the flag ends true exactly when some wanted genre equals some genre of the game up to case |
| Listing.FirstOfGame | gentro-ui/services/games/games.go:351-372 | the first instance with the same game id, at or before the given one |
| Listing.GameAt | gentro-ui/services/games/games.go:351-372 | a stored game is shown as stored; a missing one as the placeholder named after the first instance of that game |
| Listing.GameAtSameGame | gentro-ui/services/games/games.go:351-372 | instances of the same game are shown with the same game |
| Listing.EntriesSound | gentro-ui/services/games/games.go:351-400 | each entry is an instance paired with its game after a successful lookup and passing search and genres |
| Listing.EntriesComplete | gentro-ui/services/games/games.go:351-400 | every instance whose lookup succeeds and whose game passes search and genres has its entry |
| Listing.EntriesConsistent | gentro-ui/services/games/games.go:351-400 | entries of one game id show one game, and every entry passes the search and genre filters |
| Listing.LookupGame | gentro-ui/services/games/games.go:352-372 | the cached lookup fails exactly when loading fails, returns the game GameAt describes and keeps the cache invariant |
| Listing.KeepGame | gentro-ui/services/games/games.go:374-394 | an entry is kept exactly when it passes the search and genre filters |
| Listing.CollectStep | gentro-ui/services/games/games.go:351-400 | one loop iteration extends the entries by exactly the entry of the next instance and keeps the cache holding only games first looked up from earlier instances |
| Listing.Collect | gentro-ui/services/games/games.go:348-400 | the loop with its game cache builds exactly the entries of the instances in order |
| Listing.GetGames | gentro-ui/services/games/games.go:318-406 | a query error is returned wrapped as "failed to get instances: ..."; otherwise the entries of the source-filtered instances, as a permutation, sorted by the effective sort |
| Listing.DefaultSortByName | gentro-ui/services/games/games.go:330-336 | with no sort options the listing is ordered by lower-cased name ascending |
| Art.SniffAsWritten | gentro-ui/services/games/art/composer.go:232-249 | the detection as written panics exactly for a one-byte body starting 0x89 or 0xFF without an image content type |
| Art.SniffOneByteBody | gentro-ui/services/games/art/composer.go:242-248 | a concrete one-byte body that reads past the end |
| Art.DetectFormat | gentro-ui/services/games/art/composer.go:232-249 | "png" exactly for an image/png type or, without an image type, the bytes 0x89 0x50; "jpeg" likewise for image/jpeg, image/jpg or 0xFF 0xD8; otherwise "" |
| Art.DetectFormatAgrees | gentro-ui/services/games/art/composer.go:232-249 | wherever the written detection does not panic the corrected one gives the same format |
| Art.DownloadImageBytes | gentro-ui/services/games/art/composer.go:211-252 | success exactly for status 200 with a readable body, returning the body and its format; any other status is the "image download returned status N" error |
| Art.DownloadImage | gentro-ui/services/games/art/composer.go:196-208 | success exactly when the bytes download and decode, returning the decoded image |
| Art.GoDiv | gentro-ui/services/games/art/composer.go:109-110 | Go's integer division, which truncates toward zero |
| Art.CenterBalanced | gentro-ui/services/games/art/composer.go:107-111 | the logo's margins on either side differ by at most one pixel, and a logo that fits lies inside the 460x215 header |
| Art.CenterOversized | gentro-ui/services/games/art/composer.go:109-109 | a logo wider than the header is placed by truncation, not flooring |
| Art.FirstUsable | gentro-ui/services/games/art/composer.go:51-82 | the first candidate with a non-empty URL that downloads, and none exactly when no candidate is usable |
| Art.FirstBackground | gentro-ui/services/games/art/composer.go:51-86 | the background is the first usable candidate, named by its kind; empty URLs are never downloaded and the winning URL is the last one tried |
| Art.ComposeHeader | gentro-ui/services/games/art/composer.go:44-126 | an error exactly when no background candidate is usable; otherwise that background, and a logo centred at the fitted size exactly when the logo URL is usable; the logo is tried after the background, only when its URL is non-empty; a logo fitted into 276x215 is at most 276 pixels wide (60% of the header) and lies inside the header |
| Art.ScreenshotFirst | gentro-ui/services/games/art/composer.go:51-60 | a usable screenshot is the background and neither artwork nor cover is downloaded |
| Art.LogoNeverFails | gentro-ui/services/games/art/composer.go:97-117 | whether the header succeeds does not depend on the logo |
| Art.DownloadTypes | gentro-ui/services/games/art/composer.go:171-189 | an art type is in the result exactly when it is listed, has a non-empty URL and downloads, holding the downloaded bytes |
| Art.DownloadAllArt | gentro-ui/services/games/art/composer.go:166-193 | only the four known art types appear, each exactly when its URL is non-empty and its download succeeds, with the downloaded bytes |
| Art.CachePath | gentro-ui/services/games/art/composer.go:148-163 | the art's path ends in "<artType>.png" |
| Art.CacheArtPathAgrees | gentro-ui/services/games/art/composer.go:135-140 | CacheArt's two-step path equals the path the readers use |
| Art.CacheArt | gentro-ui/services/games/art/composer.go:134-146 | a failed directory creation or write is the matching error and changes nothing; otherwise the data is stored at the art's path |
| Art.GetCachedArt | gentro-ui/services/games/art/composer.go:149-156 | the stored bytes exactly when the art's file exists |
| Art.HasCachedArt | gentro-ui/services/games/art/composer.go:159-163 | true exactly when the art's file exists |
| Art.CacheRoundTrip | gentro-ui/services/games/art/composer.go:134-163 | what CacheArt stores, GetCachedArt returns and HasCachedArt sees |
| Art.HasIffGet | gentro-ui/services/games/art/composer.go:149-163 | HasCachedArt and GetCachedArt agree on every cache of readable regular files |

## Left out

- SQL text, schema migrations, the sqlite driver and row scanning are not modelled. The store is a set of keyed tables, and every query not listed below succeeds.
- Instances.GetInstances: Go returns instances in map order; the model returns them in table order. Query and Scan errors are not modelled. JSON decoding of stored values is a parameter.
- JSON marshalling and parsing everywhere are parameters or structured values. Only the textual `%q` quoting of ASCII characters is modelled; `%q`'s treatment of non-ASCII characters is not.
- Text.Lower lower-cases ASCII letters only. Go's `strings.ToLower` and `strings.EqualFold` also fold non-ASCII letters, and Unicode case folding is not modelled.
- Host probes are inputs: `flatpak info`, the PATH lookup, the core-file existence checks and HOME. Process start, the 500 ms wait, the signal probe, Wait and stderr capture are left out.
- Fetcher.Queue: when the queue is full, Go waits up to one second for a worker before failing. The model refuses immediately at the capacity of 100, because there are no concurrent workers.
- Worker goroutines, channel blocking and WaitGroups are left out, and so is the order in which workers take requests. The fetcher runs one request at a time, and the moment a cancellation is seen is an input.
- The library calls a success-callback setter on the fetcher (games.go:112), but fetcher.go does not define one. The model has no callback.
- The IGDB HTTP exchanges and the OAuth 2.0 client-credentials token request (section 4.4 of RFC 6749) are inputs. Only the token-validity rule and the expiry arithmetic are kept. The query text sent to IGDB and the wording of errors from the request helper are not modelled.
- GetScreenshots, GetArtworks and GetLogos are modelled by one generic query helper: same empty-input and error shape.
- Emulated: directory walking (GetInstances), Init's directory creation and HOME lookup, GetGameArt's file read, FilterInstances (the identity) and Refresh are not modelled. The hash of a file's first megabyte is an input.
- Emulated.Launch: the source's nil-emulator and unavailable-emulator checks after a successful resolution cannot fail in the model, because resolution only returns available pairs. Starting the process is left out.
- Steam: the VDF parser, the file system and the CDN download are inputs. Refresh is a no-op and is not modelled; the empty MonitorProcess is modelled by what a Steam launch reports. Init ignores Stat errors other than "does not exist". A failed art-cache write is only logged. The logo is served with the content type "image/jpeg", as the code does.
- steam.go defines no FilterInstances. Source filters enter GetGames as functions.
- Steam's tests expect tool detection and a type key in the metadata. steam.go does not implement either, so neither is modelled.
- Timestamps (CreatedAt, UpdatedAt, StartedAt, CompletedAt) are not modelled. The monitor's clock is an input per tick.
- Listing.GetGames: Go writes a placeholder game to the database when a listed instance's game is missing. The model shows the placeholder but does not store it.
- Ordering.SortBy is a stable insertion sort. Go's `sort.Slice` is not stable, so entries that compare equal may come out in another order in Go. The model's contract states sortedness and permutation only, which both sorts satisfy.
- Ordering.KeyOf compares file sizes exactly. The Go comparator compares the wrapping int64 difference; Ordering.FileSizeCompareExact shows the two agree for every non-negative size.
- Library: art download in onMetadataResolved, UpdatedAt, and the UI events of the metadata flow are not modelled. Database errors inside the merge and queue helpers are only logged in Go and are not modelled.
- Library.NeedsMetadataUpdate: GetInstance always builds a metadata map, so the nil-map branch of the sync is unreachable and is not modelled; an empty stored map is compared key by key like any other. Go compares metadata values with `!=` on interfaces, which panics for list values; the model compares values structurally.
- GamesService.Launch, the UI event emission, the global app accessor and UpdateFilterConfig are not modelled. config.go's TOML loading and saving are not part of this model.
- ArtRoutes.ServeArt: the text of `http.Error` bodies is not modelled (the bodies are empty).
- ArtRoutes.ParseArtPath: like the handler, it ignores the first path segment, which the router has already matched.
- Art: image decoding, scaling to cover, logo scaling and PNG encoding are parameters or left out, because they are floating-point pixel work. A PNG encoding failure of the composed header is not modelled.
- Text.JoinPath and Text.Dir join and split on '/' without filepath.Clean: an element ending in '/' gives a doubled '/', and '.', '..' and repeated separators are kept. The members below inherit this.
- Command.CoreLibPath: with a HOME ending in '/' the path holds "//" where Go's filepath.Join writes one '/'.
- Steam.DetectSteamPath: the candidate paths are joined without Clean, as above.
- Steam.Init: the art cache path is joined without Clean, as above. On a failure Go has already stored the configured install path and API key in the source; the model returns only the error.
- Steam.ParseAppManifest: the install path is built from the manifest's directory without Clean, as above.
- Steam.GetGameArt: the cache file path is joined without Clean, as above.
- Art.CachePath: the cache path is joined without Clean, as above.
- Monitor.NormalizeWinePath: the model indexes characters where Go's `path[1]` and `path[2:]` index bytes. The two differ when the first character is not ASCII: for "é:x" the model drops "é:" and Go keeps the path.
- Store.GetDefaultEmulatorForPlatform: QueryRow has no ORDER BY, so which selected row Go gets is the database's choice. The model takes the first in mapping order, and the contract promises only some selected row.
- Store.GetAvailableEmulatorsForPlatform: every priority is 0, so ORDER BY priority leaves the order of the rows to the database. The model lists them in mapping order, and the contract states membership only. EmulatorService.ResolveWith's "first available pair" is therefore the first in mapping order, where Go takes whichever row the database returns first.
- EmulatorService.RegeneratePlatformMappings: success is promised only for separable names (no '_' in emulator ids or platforms, non-empty core ids). Otherwise the ids of two pairs can coincide, and Go then overwrites one row with the other or fails on the UNIQUE constraint; the model does the same, but its contract promises nothing about success there.
- EmulatorService.Initialize: success is promised only for stores with separable names, for the reason given under RegeneratePlatformMappings. The default tables are separable (EmulatorService.DefaultsSeparable).
- Art.ComposeHeader: the logo scaling is a parameter, because it is floating-point arithmetic. The 276-pixel bound holds for a scaling that fits the logo into 276x215, which is what scalePreserveAspect computes.
- Art.DownloadImageBytes: it uses the corrected format sniffing (Art.DetectFormat), so a one-byte body [0x89] or [0xFF] with a non-image Content-Type gives that body with no format, where Go panics with an index out of range (see "## Findings", Art.SniffAsWritten). Art.DownloadImage, Art.FirstBackground, Art.ComposeHeader, Art.DownloadTypes and Art.DownloadAllArt inherit this.
- Art.HasIffGet: the cache maps paths to the bytes of readable regular files. Go's os.Stat also succeeds for a directory or an unreadable file at the art path, where ReadFile fails; there HasCachedArt is true and GetCachedArt is an error, which the model cannot represent.
- Monitor.IsProcessRunningInPath: the process listing and each process's executable and command line are inputs. Processes whose details cannot be read are modelled by absent fields.

## Findings

| source | as written | input that shows it | evidently intended | confidence | as-written member | corrected member |
|---|---|---|---|---|---|---|
| gentro-ui/services/games/emulator/service.go:454-495 | a path is quoted only when it contains a space, and quoting is `%q`; the tokeniser drops quote characters and keeps backslashes | the ROM path `it's.nes` is passed unquoted, and the tokeniser reads it back as `its.nes` | every ROM path, whatever it contains, reaches the emulator as one argument equal to the path | not executed | Command.RomQuoteLost | Command.SafeRomRoundTrip |
| gentro-ui/services/games/art/composer.go:242-248 | when the content type is not an image type and the body is non-empty, `data[1]` is read whenever `data[0]` is 0x89 or 0xFF | a one-byte body `[0x89]` served as `application/octet-stream` reads past the end (index out of range) | check that at least two bytes are present before reading the second one | not executed | Art.SniffAsWritten | Art.DetectFormat |
| gentro-ui/services/games/metadata/fetcher.go:56-113 | Stop closes the queue channel, and Start after Stop sets the running flag again without making a new channel | NewFetcher, Start, Stop, Start, then Queue sends on a closed channel, which panics | a restarted fetcher accepts requests again (a new channel on restart) | not executed | Fetcher.RestartPanics | Fetcher.StartFresh |
| gentro-ui/services/games/metadata/fetcher.go:56-94 | Stop closes the queue channel whenever the fetcher is running, and a restarted fetcher still holds the channel closed by the first Stop | NewFetcher, Start, Stop, Start, Stop: the second Stop closes a closed channel, which panics | a restarted fetcher stops again cleanly | not executed | Fetcher.RestartStopPanics | Fetcher.StartFreshNeverPanics |
| gentro-ui/services/games/sources/steam/steam.go:398-405 | Steam's MonitorProcess is empty and nothing calls the polling monitor, so after "launching" a Steam launch reports nothing | a Steam game that starts and keeps running: the poll would see it, but "running" is never emitted | Steam launches are watched by the polling monitor, which emits "running" once the game is seen and "stopped" after ten quiet seconds | not executed | Monitor.SteamRunningUnreported | Monitor.SteamStatuses |
