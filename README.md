# YACL launcher bookkeeping in Dafny

YACL is a desktop launcher for Cataclysm: Dark Days Ahead and its forks. It
fetches game releases from GitHub, installs builds side by side, remembers
which build of each game is active, and keeps settings and window state
between runs. This project models the launcher's bookkeeping and proves
properties of it. The bookkeeping is the part that decides what to do; the
downloads, archives, files and widgets it drives are not modelled.

The model has one Dafny module per source file, plus four shared modules:

| module | models |
|---|---|
| `InstallationManagers` | `installation_manager.py`: installed builds per game type, the active-build cache and its eviction of stale names, the current game type, the install-directory choice, pending installations, removal, persisting the cache in the settings |
| `ReleaseManagers` | `release_manager.py`: the per-game release cache (newest tags first), its per-channel buckets, the merge of fetched releases, the decision whether a listing must fetch, the listing itself |
| `ReleaseSearch` | `release_search.py`: case-insensitive tag search and the sorted list of distinct tags |
| `GameTypes` | `game_type.py`: the game-type record, the registry that always ends with `other`, lookups, its dictionary form |
| `Installations` | `installation.py`: installation metadata, its dictionary round trip, the installation context |
| `Settings` | `settings.py`: the two-layer (defaults overlaid by file) user and core stores behind a loaded flag, and game-type registration from the core layer |
| `CataclysmDb` | `cataclysm_db.py`: the version indexes, the update list, the index update, download counting, re-indexing by tag, database-file validation |
| `WindowManagers` | `window_manager.py`: the whitelisted state merge, the minimum-size clamp, resizing, centring and the `WxH+X+Y` geometry string |
| `FileOps` | `file_ops.py`: game-root detection and extracted-root choice over a directory tree, and the missing-path results of removal and listing |
| `Helpers` | `helpers.py`: the next free `gameN` directory |
| `Paths` | `paths.py`: the application's directory layout |
| `InputDialog` | `input_dialog.py`: turning a typed branch name into `<save>-<branch>` |
| `CheckpointDialogs` | `checkpoint_dialog.py`: the branch-name validator and the confirm and cancel handlers of both timeline dialogs |
| `Text`, `Json`, `OrderedMaps`, `Wrappers` | the Python built-ins the code relies on: `strip`, `lower`, `replace`, substring test, `int`/`str`, string order; JSON values with Python truthiness and `<`; insertion-ordered `dict`; `Option`/`Result` |
| `Releases` | the release and asset records (their module is not part of this model), with only the fields the modelled code reads |

Objects whose fields the source updates in place are classes:
`InstallationManager`, `ReleaseManager`, `ReleaseSearchIndex`, `Registry`,
`SettingsManager`, `CataclysmDbManager`, `WindowManager`, `PathManager`,
`InstallationContext`, `CheckpointDialog` and `BranchDialog`. Each method
states its whole new state, most often as a specification function of the
old state. The properties the source promises are proved about those
functions as lemmas. Loops stay loops, with their invariants.

The outside world enters as parameters:
- a file's content is `Missing`, `Unreadable` or `Parsed(json)`;
- a directory is a tree of entries in listing order, and existing paths are a set;
- the clock is an integer (seconds) or an ISO string;
- what the GitHub API or a download returns is an argument;
- the texts typed into a dialog are arguments, and the error box shown is a result;
- events sent on the event bus are recorded in a ghost log.

The helpers handle the Python semantics that matter here:
- Python's `dict` keeps insertion order, and several results depend on it. Such dicts are `OrderedMap`s: a key sequence plus a map.
- Python's `<` on JSON values compares numbers, strings and lists (lexicographically, with Python's `==` on the elements) and raises `TypeError` for every other pair; the model returns `None` there.
- The callers catch that exception as the source does.
- `dict.update` takes a dict, or a list whose every element is a key/value pair (later pairs win). Any other value raises, and the settings loaders then keep the defaults.

## Model

| member | source | states |
|---|---|---|
| GameTypes.Other | src/yacl/models/game_type.py:107 | `GameType.other` is named `other`, displayed as `Other`, and has no repository |
| GameTypes.ByName | src/yacl/models/game_type.py:45-59 | the first registered type with the name is returned; `other` is returned when no type has it |
| GameTypes.ByDisplayName | src/yacl/models/game_type.py:61-75 | the first registered type with the display name is returned; `other` is returned when no type has it |
| GameTypes.InsertBeforeLast | src/yacl/models/game_type.py:98 | `list.insert(-1, x)` adds exactly `x` (as multisets), just before the old last element, and keeps the rest in order; on an empty list the result is `[x]` |
| GameTypes.AddType | src/yacl/models/game_type.py:88-100 | a used name leaves the list unchanged; otherwise `x` is inserted before the last entry |
| GameTypes.AddTypeKeepsShape | src/yacl/models/game_type.py:91-108 | adding keeps `other` last and all names distinct; the list grows by one exactly when the name was new |
| GameTypes.Registry.constructor | src/yacl/models/game_type.py:108 | the registry starts as `[other]` |
| GameTypes.Registry.AddGameType | src/yacl/models/game_type.py:77-104 | it returns true exactly when no registered type had the name, and the new list is `AddType` of the old one |
| GameTypes.InsertBeforeLastKeeps | src/yacl/models/game_type.py:98 | every type already registered is still registered after an insertion |
| GameTypes.StringsToJson | src/yacl/models/game_type.py:32 | the executables map keeps its platforms and becomes a JSON object of strings |
| GameTypes.ToDict | src/yacl/models/game_type.py:26-33 | the dictionary has exactly the four snake-case keys; name and display name are stored as strings |
| GameTypes.JsonToStrings | src/yacl/models/game_type.py:42 | an object converts back exactly when every value is a string, with the same keys and values (a non-string value is rejected; see Left out) |
| GameTypes.FromDict | src/yacl/models/game_type.py:35-43 | a missing `name` or `display_name` raises `KeyError`; on success both fields come from the dictionary, the repository and executables from their keys (a mistyped value is rejected; see Left out) |
| GameTypes.FromDictToDict | src/yacl/models/game_type.py:26-43 | `from_dict(to_dict(g))` gives back `g` |
| GameTypes.HashIgnoresExecutables | src/yacl/models/game_type.py:23-24 | the hash key is name, display name and repository, so changing the executables does not change it |
| Installations.StatusValueInjective | src/yacl/models/installation.py:19-26 | the six status values are different strings, so a value names one status |
| Installations.NewInstallation | src/yacl/models/installation.py:48-66 | every field is the argument given; the metadata version is `1.0`, and the install date is the construction time |
| Installations.ToDict | src/yacl/models/installation.py:86-103 | the dictionary has exactly the fourteen keys of the record |
| Installations.ToDictStored | src/yacl/models/installation.py:88-103 | the game type is stored by its name, the channel by its value, and the install date and metadata version as they are |
| Installations.StringField | src/yacl/models/installation.py:72-83 | `data.get(key, default)` for a string field: the default when the key is absent, the stored string when present (a non-string is rejected; see Left out) |
| Installations.IntField | src/yacl/models/installation.py:77-82 | `data.get(key, 0)` for an integer field: 0 when absent, the stored integer when present (another value is rejected; see Left out) |
| Installations.GameTypeField | src/yacl/models/installation.py:74 | the game type is looked up by the stored name, or by `other` when absent; a non-string gives `other` |
| Installations.ChannelField | src/yacl/models/installation.py:75 | the channel is built from a known value and defaults to `unknown`; any other value raises `ValueError` |
| Installations.FromDict | src/yacl/models/installation.py:68-84 | a loaded record has metadata version "1.0", the load time as install date, and the game type looked up by the stored name |
| Installations.FromDictDefaults | src/yacl/models/installation.py:70-83 | each missing key takes its default: `unknown`, 0 or the empty string |
| Installations.FromDictToDict | src/yacl/models/installation.py:68-103 | a round trip keeps every field except the game type (looked up again by name), the install date and the metadata version |
| Installations.GameTypeRoundTrip | src/yacl/models/installation.py:74-92 | a registered game type, with names unique, survives the round trip |
| Installations.UnregisteredGameTypeIsOther | src/yacl/models/installation.py:74-92 | an unregistered game type comes back as `other` |
| Installations.InstallationContext.constructor | src/yacl/models/installation.py:30-39 | a new context is pending, with progress 0, empty paths and the given release, asset, flag and id |
| Helpers.SlotName | src/yacl/utils/helpers.py:93 | a directory name is `game` followed by decimal digits |
| Helpers.SlotNameInjective | src/yacl/utils/helpers.py:93 | different numbers give different directory names |
| Helpers.SlotInjective | src/yacl/utils/helpers.py:85-93 | different numbers give different candidate paths under the same directory |
| Helpers.GetNextInstallDirectory | src/yacl/utils/helpers.py:70-105 | the result is always some `base/game/gameN` with N at most 1000. When a free slot exists, it is the first free one. When mkdir fails or `game0`..`game1000` all exist, the fallback is `game0` |
| Paths.Join | src/yacl/services/paths.py:80-97 | `p / name` extends `p` by exactly that one component |
| Paths.PathManager.constructor | src/yacl/services/paths.py:75-97 | `app_dir` is the home directory joined with the lower-cased application name; the other eleven directories follow the fixed layout under it |
| Paths.PathManager.GetGameInstallDir | src/yacl/services/paths.py:125-136 | the result is the games directory followed by the game and the install name |
| Paths.PathManager.GetGameUserDir | src/yacl/services/paths.py:138-149 | the user directory is the install directory named `userdata` |
| Paths.PathManager.GetBackupDir | src/yacl/services/paths.py:175-185 | the result is the backups directory followed by the game |
| Paths.PathManager.GetCacheFile | src/yacl/services/paths.py:197-207 | the result is the cache directory followed by the file name |
| Paths.PathManager.GetTempFile | src/yacl/services/paths.py:209-219 | the result is the temp directory followed by the file name |
| Paths.PathManager.CreateDirectoryStructure | src/yacl/services/paths.py:99-123 | it succeeds exactly when no directory's mkdir fails, and then all twelve exist; otherwise the error is re-raised |
| Paths.LayoutUnderAppDir | src/yacl/services/paths.py:80-97 | all twelve directories lie under `app_dir`; games lies under data, and temp under cache |
| Paths.LayoutDistinct | src/yacl/services/paths.py:80-114 | the twelve directories are pairwise different, so exactly twelve are created |
| Settings.Overlay | src/yacl/services/settings.py:287-340 | a layer loaded from a file holds the defaults overlaid by the file's entries: an object's fields, or a list's string-keyed pairs with later pairs winning. A missing or unreadable file, or a value `update` rejects (a scalar, a non-empty string or a list with an element that is not a pair), leaves exactly the defaults |
| Settings.UpdatePair | src/yacl/services/settings.py:301 | one element given to `update`: a two-item list with a string key, or a two-character string, is a pair; an unhashable key or any other element makes `update` raise |
| Settings.UpdateEntries | src/yacl/services/settings.py:301 | a dict adds its own entries, a list adds its pairs, an empty string adds nothing, and every other value makes `update` raise |
| Settings.UpdateAccepts | src/yacl/services/settings.py:301 | a dict is always accepted, a number, boolean or `None` never, and a string only when it is empty |
| Settings.PairUpdatesFail | src/yacl/services/settings.py:301 | an update from a list of pairs fails exactly when some element is not a pair |
| Settings.PairUpdatesKeys | src/yacl/services/settings.py:301 | a successful update from pairs adds exactly the keys of its string-keyed pairs |
| Settings.PairUpdatesLastWins | src/yacl/services/settings.py:301 | a key takes the value of its last pair |
| Settings.PairListFileApplies | src/yacl/services/settings.py:298-301 | a settings file `[["theme", "dark"]]` loads, and sets `theme` over the defaults |
| Settings.ParsedGameTypes | src/yacl/services/settings.py:345-347 | `game_types` that is not a list contributes no game type |
| Settings.ParsedPrefix | src/yacl/services/settings.py:346-349 | the types registered are the leading entries that `from_dict` accepts, in list order, and the list stops at the first entry that is not an object `from_dict` accepts |
| Settings.AddTypesKeepsShape | src/yacl/models/game_type.py:88-100 | registering any number of types keeps `other` last and names unique, and loses no registered type |
| Settings.ReadLayer | src/yacl/services/settings.py:117-154 | before loading, the defaults file answers, falling back to the caller's default. Afterwards the current layer answers, or else the caller's default |
| Settings.SettingsManager.constructor | src/yacl/services/settings.py:33-42 | both layers start empty and not loaded |
| Settings.SettingsManager.ReadUser | src/yacl/services/settings.py:106-129 | before loading, the user defaults answer; afterwards the stored user value answers, or else the caller's default |
| Settings.SettingsManager.ReadCore | src/yacl/services/settings.py:131-154 | as `ReadUser`, on the core layer and the core defaults |
| Settings.SettingsManager.Read | src/yacl/services/settings.py:156-167 | `read` answers from the user layer |
| Settings.SettingsManager.StoreUser | src/yacl/services/settings.py:169-191 | a store is refused before loading. Otherwise it sets exactly that user key, and reading it back gives the value. The core layer is untouched |
| Settings.SettingsManager.StoreCore | src/yacl/services/settings.py:193-215 | as `StoreUser`, on the core layer |
| Settings.SettingsManager.Store | src/yacl/services/settings.py:217-228 | `store` writes the user layer |
| Settings.SettingsManager.LoadUserSettings | src/yacl/services/settings.py:287-311 | the user layer becomes `Overlay(defaults, file)`; nothing else changes |
| Settings.SettingsManager.InitializeGameTypes | src/yacl/services/settings.py:342-349 | the registry is extended by the game types `read_core("game_types", [])` lists and stays well-formed |
| Settings.RegisterGameTypes | src/yacl/services/settings.py:346-349 | each listed type is added in turn until the first one `from_dict` rejects; a non-list adds nothing |
| Settings.SettingsManager.LoadCoreSettings | src/yacl/services/settings.py:313-340 | the core layer becomes `Overlay(defaults, file)`. Game types are registered unless reading failed, and during initialisation they come from the core DEFAULTS file |
| Settings.SettingsManager.LoadCoreSettingsIntended | src/yacl/services/settings.py:313-340 | corrected: the registered game types come from the core layer just loaded |
| Settings.CoreFileGameTypesIgnored | src/yacl/services/settings.py:143-145 | a game type listed only in the core settings file is part of the loaded layer, yet the defaults (read during loading) list none |
| Settings.SettingsManager.Initialize | src/yacl/services/settings.py:75-104 | it succeeds exactly when the settings directory can be created. Then both layers are loaded from their files, the manager is marked loaded, and the registry gains the game types of the core defaults (of the new core layer when it was already loaded); it is unchanged when the core file cannot be read; on failure nothing changes |
| Settings.SettingsManager.GetAllUserSettings | src/yacl/services/settings.py:352-359 | the copy has the user layer's keys and values |
| Settings.SettingsManager.GetAllCoreSettings | src/yacl/services/settings.py:361-368 | the copy has the core layer's keys and values |
| Settings.SettingsManager.GetAllSettings | src/yacl/services/settings.py:370-377 | `get_all_settings` is the user copy |
| Settings.SettingsManager.ResetUserToDefaults | src/yacl/services/settings.py:379-393 | the user layer becomes the defaults and the result is true; nothing else changes |
| Settings.SettingsManager.ResetCoreToDefaults | src/yacl/services/settings.py:395-409 | the core layer becomes the defaults and the result is true; nothing else changes |
| Settings.SettingsManager.ResetToDefaults | src/yacl/services/settings.py:411-420 | both layers are reset and the result is true |
| Settings.OverlayKeepsDefaults | src/yacl/services/settings.py:293-301 | a loaded layer keeps each default the file does not override, takes each file value, and has no other key |
| CataclysmDb.Version | src/yacl/services/cataclysm_db.py:262 | the stored `version` when the entry has one, otherwise 0 |
| CataclysmDb.LocalVersion | src/yacl/services/cataclysm_db.py:263 | the local entry's version when the game is known locally, otherwise 0 |
| CataclysmDb.UpdatesNeeded | src/yacl/services/cataclysm_db.py:257-269 | the only failure is the `TypeError` of an incomparable version pair |
| CataclysmDb.UpdatesNeededOk | src/yacl/services/cataclysm_db.py:265 | the list is computed exactly when every remote/local version pair can be compared (numbers, strings, and lists compared lexicographically) |
| CataclysmDb.ListVersionsCompare | src/yacl/services/cataclysm_db.py:261-266 | list versions compare: remote `[2]` over local `[1]` lists the game |
| CataclysmDb.UpdatesNeededErrPrefix | src/yacl/services/cataclysm_db.py:261-265 | a comparison failing part-way through the remote index fails the whole call |
| CataclysmDb.UpdatesNeededMembers | src/yacl/services/cataclysm_db.py:261-266 | a game is listed exactly when it is in the remote index and its remote version is greater than its local one |
| CataclysmDb.UpdatesNeededOrdered | src/yacl/services/cataclysm_db.py:261-266 | the listed games appear in the remote index's order |
| CataclysmDb.UpdatesNeededDistinct | src/yacl/services/cataclysm_db.py:261-266 | no game is listed twice |
| CataclysmDb.SyncedContents | src/yacl/services/cataclysm_db.py:343-351 | after the index update every remote game is known locally with the remote version and the update time; its other fields are kept, and games known only locally are untouched |
| CataclysmDb.SyncOne | src/yacl/services/cataclysm_db.py:347-351 | one remote game's entry is created if missing and takes the remote version and the time; its other fields and every other game stay |
| CataclysmDb.Synced | src/yacl/services/cataclysm_db.py:343-351 | the update never drops a locally known game; what every entry then holds is `SyncedContents` |
| CataclysmDb.SyncedSnoc | src/yacl/services/cataclysm_db.py:346-351 | one more remote game in the loop is one more `SyncOne` step |
| CataclysmDb.NothingNeededAfterSync | src/yacl/services/cataclysm_db.py:257-269 | right after the index update, with comparable remote versions, no update is needed |
| CataclysmDb.CountPositive | src/yacl/services/cataclysm_db.py:282 | the count is positive exactly when some game's download succeeded |
| CataclysmDb.IndexByTag | src/yacl/services/cataclysm_db.py:322 | a computed index is a well-formed ordered dict |
| CataclysmDb.IndexByTagOk | src/yacl/services/cataclysm_db.py:322 | re-indexing succeeds exactly when every release is an object with a hashable `tag_name` |
| CataclysmDb.IndexByTagHasTags | src/yacl/services/cataclysm_db.py:322 | every release's tag is a key of the index |
| CataclysmDb.IndexByTagOnlyTags | src/yacl/services/cataclysm_db.py:322 | every key of the index is some release's tag |
| CataclysmDb.IndexByTagLastWins | src/yacl/services/cataclysm_db.py:322 | a tag maps to the last release carrying it |
| CataclysmDb.LoadGameDatabase | src/yacl/services/cataclysm_db.py:142-181 | `None` for a missing or nameless game type, a missing or unreadable file, or a non-object; otherwise the data, with every field kept and `releases` added as `{}` when missing, and nothing else added |
| CataclysmDb.CataclysmDbManager.constructor | src/yacl/services/cataclysm_db.py:51-52 | both indexes start empty |
| CataclysmDb.CataclysmDbManager.DetermineUpdatesNeeded | src/yacl/services/cataclysm_db.py:257-269 | the loop's result is `UpdatesNeeded` over the remote index in its key order |
| CataclysmDb.CataclysmDbManager.UpdateLocalIndex | src/yacl/services/cataclysm_db.py:343-351 | the remote index is unchanged and the local index becomes `Synced` of the old one |
| CataclysmDb.DownloadDatabaseUpdates | src/yacl/services/cataclysm_db.py:271-290 | the result is true exactly when at least one game's download succeeded |
| ReleaseManagers.ChannelKeys | src/yacl/models/release_manager.py:311-312 | a tag is kept exactly when its release is in the channel, and the kept tags have no duplicates |
| ReleaseManagers.OfChannel | src/yacl/models/release_manager.py:300-315 | a channel's view holds exactly the releases of that channel, unchanged |
| ReleaseManagers.ChannelKeysCons | src/yacl/models/release_manager.py:147-149 | putting a tag in front puts it in front of its channel's list and nowhere else |
| ReleaseManagers.ChannelKeysFrame | src/yacl/models/release_manager.py:147-149 | a value stored under an unlisted tag does not change any channel's list |
| ReleaseManagers.OfChannelPrependKeys | src/yacl/models/release_manager.py:143-149 | after a new release goes in front of all releases, its channel's view starts with it and every other view keeps its order |
| ReleaseManagers.OfChannelPrependValues | src/yacl/models/release_manager.py:143-149 | the new release is added to its own channel's view and to no other |
| ReleaseManagers.OfChannelPrependSame | src/yacl/models/release_manager.py:143-149 | prepending to all releases prepends to the release's own channel view |
| ReleaseManagers.OfChannelPrependOther | src/yacl/models/release_manager.py:143-149 | prepending to all releases leaves every other channel's view as it was |
| ReleaseManagers.MergeFrom | src/yacl/models/release_manager.py:133-161 | a merge keeps every ordered dict well-formed |
| ReleaseManagers.NewReleases | src/yacl/models/release_manager.py:142-144 | every release a merge adds has a non-empty tag that was not cached, and comes from the input |
| ReleaseManagers.MergeKeepsExisting | src/yacl/models/release_manager.py:142-147 | a release already cached is never changed or removed |
| ReleaseManagers.MergeKeepsTagged | src/yacl/models/release_manager.py:142-159 | every release stays filed under its own non-empty tag; untagged releases are skipped |
| ReleaseManagers.MergeOrder | src/yacl/models/release_manager.py:141-147 | the new tags come first, in input order (newer first), followed by the old tags in their old order |
| ReleaseManagers.MergeLastWins | src/yacl/models/release_manager.py:141-147 | a new tag given several times holds its last release in the input |
| ReleaseManagers.MergeKeepsConsistent | src/yacl/models/release_manager.py:141-153 | each channel bucket stays exactly its channel's view of all releases, and no bucket is added |
| ReleaseManagers.NewReleasesComplete | src/yacl/models/release_manager.py:142-144 | every new non-empty tag of the input is added |
| ReleaseManagers.ReleaseManager.constructor | src/yacl/models/release_manager.py:28-42 | all three maps start empty, and the manager records whether it was given an event manager |
| ReleaseManagers.ReleaseManager.InitializeGameTypes | src/yacl/models/release_manager.py:443-454 | every game type gets an empty cache with an empty bucket per channel, and takes its stored fetch time when there is one |
| ReleaseManagers.ReleaseManager.MergeReleases | src/yacl/models/release_manager.py:133-161 | an uncached game type leaves everything as it was; otherwise its cache becomes `MergeFrom` of the old one |
| ReleaseManagers.ReleaseManager.HasReleasesCached | src/yacl/models/release_manager.py:398-409 | true exactly when the game type has a cache with at least one release |
| ReleaseManagers.ReleaseManager.FetchIsStale | src/yacl/models/release_manager.py:345 | a game type never fetched is stale; otherwise it is stale after more than three hours |
| ReleaseManagers.ReleaseManager.ChannelCached | src/yacl/models/release_manager.py:350-351 | true exactly when a channel is given and its bucket is not empty |
| ReleaseManagers.ReleaseManager.NeedsFetch | src/yacl/models/release_manager.py:338-352 | a fetch is needed exactly when forced, nothing is cached, the last fetch is stale, or the channel's bucket is empty |
| ReleaseManagers.ReleaseManager.FetchReleases | src/yacl/models/release_manager.py:44-131 | it succeeds exactly when a channel is given and the game type has a repository. With no channel and an event manager it raises before fetching, so nothing is logged or changed. Otherwise the fetch is logged; without a repository nothing changes, else the releases are merged and the fetch time becomes now (also when a missing channel then raises at the last log line) |
| ReleaseManagers.ReleaseManager.Listing | src/yacl/models/release_manager.py:360-370 | the listing is the chosen channel's releases (or the ALL channel's, with no channel) in cache order; `[]` without a bucket |
| ReleaseManagers.ReleaseManager.RefreshIfNeeded | src/yacl/models/release_manager.py:338-363 | the manager fetches exactly when `NeedsFetch` holds, and the caches and fetch time then are those `FetchReleases` leaves. The call goes on to the listing exactly when no fetch was needed, the fetch succeeded, or releases are cached afterwards |
| ReleaseManagers.ReleaseManager.GetReleases | src/yacl/models/release_manager.py:317-381 | no game type gives `[]` and changes nothing. Otherwise it fetches exactly when `NeedsFetch` holds, leaves the caches `FetchReleases` describes (the fetched releases merged in when the fetch starts and the type has a repository and a cache; unchanged when a missing channel stops the fetch), and lists the chosen bucket of that state cut to a positive limit |
| ReleaseManagers.ReleaseManager.EmptyListing | src/yacl/models/release_manager.py:361-364 | with nothing cached every listing is empty |
| ReleaseManagers.ReleaseManager.GetAllReleases | src/yacl/models/release_manager.py:383-396 | the game type's cache, or an empty dict |
| ReleaseManagers.ReleaseManager.GroupReleasesByChannel | src/yacl/models/release_manager.py:300-315 | there is a bucket for every channel, each exactly that channel's view in input order |
| ReleaseManagers.MergeInto | src/yacl/models/release_manager.py:141-161 | the loop's result is `MergeFrom` |
| ReleaseManagers.MergePreservesOk | src/yacl/models/release_manager.py:133-161 | a merge whose releases all have buckets keeps every game type's cache consistent |
| ReleaseManagers.AddEmptyOk | src/yacl/models/release_manager.py:444-447 | an empty cache with an empty bucket per channel is consistent |
| ReleaseManagers.Limit | src/yacl/models/release_manager.py:372-373 | a positive limit keeps the first `limit` releases; any other limit keeps all; the result is a prefix |
| ReleaseManagers.EmptyBuckets | src/yacl/models/release_manager.py:445-447 | one empty bucket per channel |
| ReleaseManagers.SetAllContents | src/yacl/models/release_manager.py:443-447 | the listed keys are set to the value; every other key keeps its value |
| ReleaseManagers.SetStoredContents | src/yacl/models/release_manager.py:449-454 | a listed key with a stored value takes it; every other key keeps its value |
| ReleaseManagers.AddAllOk | src/yacl/models/release_manager.py:443-447 | initialising any list of game types keeps the manager's invariant |
| ReleaseSearch.Picked | src/yacl/utils/release_search.py:64-69 | the results are the subsequence of the index at increasing positions, and a position is picked exactly when that release's tag is non-empty and contains the query |
| ReleaseSearch.ReleaseSearchIndex.constructor | src/yacl/utils/release_search.py:23-30 | a new index is empty |
| ReleaseSearch.ReleaseSearchIndex.AddReleases | src/yacl/utils/release_search.py:32-43 | the index becomes a copy of the given releases |
| ReleaseSearch.ReleaseSearchIndex.Search | src/yacl/utils/release_search.py:45-72 | a blank query returns the whole index; otherwise the index's releases whose lower-cased non-empty tag contains the stripped, lower-cased query, in index order |
| ReleaseSearch.SearchResult | src/yacl/utils/release_search.py:56-72 | a blank query gives the whole index; otherwise a release is a result exactly when it is in the index and matches the normalised query |
| ReleaseSearch.ReleaseSearchIndex.GetAllTags | src/yacl/utils/release_search.py:78-90 | the tags are strictly increasing (sorted, no duplicates), and a string is listed exactly when it is the non-empty tag of some indexed release |
| ReleaseSearch.SortedTags | src/yacl/utils/release_search.py:90 | `sorted(list(tags))` is strictly increasing and has exactly the set's elements |
| ReleaseSearch.Insert | src/yacl/utils/release_search.py:90 | inserting a new string into a sorted list keeps it sorted and adds exactly that string |
| ReleaseSearch.InsertFront | src/yacl/utils/release_search.py:90 | a string below a sorted list's head can be put in front |
| ReleaseSearch.InsertBehind | src/yacl/utils/release_search.py:90 | the head of a sorted list can go in front of a sorted insertion into its tail |
| ReleaseSearch.FilterMembers | src/yacl/utils/release_search.py:65-69 | a release is a result exactly when it is in the index and matches |
| ReleaseSearch.EmptyTagNeverFound | src/yacl/utils/release_search.py:66 | a release with an empty tag is never a result of a non-blank search |
| ReleaseSearch.SpaceIgnoresCase | src/yacl/utils/release_search.py:61 | characters equal up to case are both whitespace or both not |
| ReleaseSearch.LStripIgnoresCase | src/yacl/utils/release_search.py:61 | left-stripping strings equal up to case gives strings equal up to case |
| ReleaseSearch.RStripIgnoresCase | src/yacl/utils/release_search.py:61 | right-stripping strings equal up to case gives strings equal up to case |
| ReleaseSearch.NormalIgnoresCase | src/yacl/utils/release_search.py:56-61 | queries equal up to case are equally blank and normalise to the same string |
| ReleaseSearch.BlankIff | src/yacl/utils/release_search.py:56 | a query is blank exactly when every character is whitespace |
| ReleaseSearch.SearchIgnoresCase | src/yacl/utils/release_search.py:56-69 | the search is case-insensitive: queries equal up to case give the same results |
| InstallationManagers.ActiveLookup | src/yacl/models/installation_manager.py:165-195 | a build is returned exactly when the cached name is set and still installed, and then it is that build; a stale name or an uninstalled type gives `None` |
| InstallationManagers.AfterLookup | src/yacl/models/installation_manager.py:182-190 | a lookup evicts a stale cached name and changes nothing else |
| InstallationManagers.LookupEvictsOnce | src/yacl/models/installation_manager.py:165-195 | after one lookup nothing is stale, and a second lookup returns the same and changes nothing |
| InstallationManagers.Key | src/yacl/models/installation_manager.py:90 | the settings key is `active_install_` followed by the type's name |
| InstallationManagers.KeyInjective | src/yacl/models/installation_manager.py:90 | different type names give different keys |
| InstallationManagers.NameSetting | src/yacl/models/installation_manager.py:91 | a stored value names a build exactly when it is a non-empty string, and then it is that string |
| InstallationManagers.SettingName | src/yacl/models/installation_manager.py:90-91 | the name a type caches is what `read` gives for its key, when that names a build |
| InstallationManagers.InitialActive | src/yacl/models/installation_manager.py:83-98 | a registered type is cached exactly when its setting names a build, and then with that name |
| InstallationManagers.InitialActiveStep | src/yacl/models/installation_manager.py:89-92 | one more type read adds that type's entry when it has one |
| InstallationManagers.ActiveName | src/yacl/models/installation_manager.py:106-109 | the cached name, or `""` without one |
| InstallationManagers.PersistMap | src/yacl/models/installation_manager.py:100-115 | every registered type's key is written with its cached name or `""`, and no other key is written |
| InstallationManagers.PersistMapStep | src/yacl/models/installation_manager.py:105-109 | persisting one more type writes exactly that type's key |
| InstallationManagers.Restrict | src/yacl/models/installation_manager.py:91-92 | the registered types with a non-empty cached name, with those names |
| InstallationManagers.PersistRoundTrip | src/yacl/models/installation_manager.py:83-115 | persisting the cache and reading it back restores exactly the non-empty cached names of the registered types |
| InstallationManagers.RemovalFailure | src/yacl/models/installation_manager.py:940-951 | a failure result: not successful, not active, no new build, with the message |
| InstallationManagers.InstallationEqualsName | src/yacl/models/installation_manager.py:916 | an installation object never equals a name |
| InstallationManagers.InstallationManager.constructor | src/yacl/models/installation_manager.py:41-69 | nothing is pending and no event has been sent. The current type and the active cache come from the settings store, and the installed builds are what the disk holds |
| InstallationManagers.InstallationManager.InitializeGameTypeFromSettings | src/yacl/models/installation_manager.py:71-81 | the current type is the one the `game` setting names, read with the first registered type's name as default |
| InstallationManagers.InstallationManager.InitializeActiveInstallationsFromSettings | src/yacl/models/installation_manager.py:83-98 | the cache gains `InitialActive` of the registered types |
| InstallationManagers.InstallationManager.PersistActiveInstallationsToSettings | src/yacl/models/installation_manager.py:100-115 | once settings are loaded, the user layer gains `PersistMap`; before that nothing is stored |
| InstallationManagers.InstallationManager.SetCurrentGameType | src/yacl/models/installation_manager.py:126-163 | corrected: success; a different type is stored in `game` and announced with one event, and the same type changes nothing |
| InstallationManagers.InstallationManager.SetCurrentGameTypeAsWritten | src/yacl/models/installation_manager.py:126-163 | as written: the type and the setting change but no event is sent. The result is true only when the type was already current |
| InstallationManagers.InstallationManager.Resolve | src/yacl/models/installation_manager.py:178-179 | a missing game type stands for the current one |
| InstallationManagers.InstallationManager.GetActiveInstallation | src/yacl/models/installation_manager.py:165-195 | corrected: the result is `ActiveLookup`, a stale name is evicted, and nothing else changes |
| InstallationManagers.InstallationManager.SetActiveInstallation | src/yacl/models/installation_manager.py:210-249 | refused exactly when the build is not installed under the type. Otherwise its name is cached and one event records the old and new builds |
| InstallationManagers.InstallationManager.SetActiveInstallationByName | src/yacl/models/installation_manager.py:251-276 | as `SetActiveInstallation`, with the build looked up by name under the type |
| InstallationManagers.InstallationManager.ClearActiveInstallation | src/yacl/models/installation_manager.py:299-333 | the type's entry is dropped; the `cleared` event is sent exactly when a build was active |
| InstallationManagers.InstallationManager.AutoSetActiveInstallation | src/yacl/models/installation_manager.py:335-373 | with nothing installed the entry is cleared and `None` returned. Otherwise an installed preferred name wins, else the first build in insertion order, and it is cached. Exactly one `ActiveInstallationChanged` event (old build, new build, `user_selection`) is emitted when a build is chosen, none otherwise |
| InstallationManagers.InstallationManager.DetermineInstallationDirectory | src/yacl/models/installation_manager.py:682-716 | when updating with an active build, its path. Otherwise `InstallationError` if the games directory cannot be made, else `games/<type>/gameN` for the smallest absent N |
| InstallationManagers.InstallationManager.CreateInstallationMetadata | src/yacl/models/installation_manager.py:648-680 | the new record is always added under its release's type by name, with the context's paths and the release's fields; a failed save does not fail the call, since `save` ignores the write's result |
| InstallationManagers.InstallationManager.UpdateInstallationStatus | src/yacl/models/installation_manager.py:851-855 | a pending id takes the new status; the context's other fields, the table and every other context stay |
| InstallationManagers.InstallationManager.CancelInstallation | src/yacl/models/installation_manager.py:868-887 | true exactly when the id is pending, which is then cancelled; only that context's status changes |
| InstallationManagers.InstallationManager.RemoveInstallation | src/yacl/models/installation_manager.py:889-951 | as written: `was_active` is always false and no build is auto-selected. Each error path (unknown build, missing path, failed delete) fails with its message; success reloads the builds |
| InstallationManagers.InstallationManager.RemoveInstallationIntended | src/yacl/models/installation_manager.py:889-951 | corrected: `was_active` holds exactly when the removed build was the active one, and then the first remaining build becomes active, or none when nothing remains. A missing type (`KeyError`) or path changes nothing; a failed delete keeps the table and only evicts a stale cached name; a successful removal that was not active keeps that cache and emits nothing. An active removal emits nothing when no build remains, else one `ActiveInstallationChanged` event from the old build (`None` once it is gone from the rescan) to the first remaining one |
| InstallationManagers.InstallationManager.Shutdown | src/yacl/models/installation_manager.py:974-998 | the cache is persisted, every pending flow is cancelled, and the table is emptied; the current core layer is kept, and the user layer too when settings are not loaded |
| InstallationManagers.InstallationManager.CancelAll | src/yacl/models/installation_manager.py:987-988 | every pending flow ends cancelled; only the contexts' status fields change |
| InstallationManagers.GameTypeSetting | src/yacl/models/installation_manager.py:75-76 | a string setting is looked up by name; anything else gives `other` |
| InstallationManagers.MetadataFor | src/yacl/models/installation_manager.py:657-670 | the record takes its name, version, type and channel from the release and its sizes and path from the asset and context |
| InstallationManagers.FirstFreeSlot | src/yacl/models/installation_manager.py:703-709 | the slot returned does not exist and every smaller one does, so the loop ends |
| InstallationManagers.GetActiveAsWritten | src/yacl/models/installation_manager.py:165-192 | as written: a build is returned only for a cached name, and then nothing changes; a type with no cached name gives `None` and changes nothing |
| InstallationManagers.ClearAsWritten | src/yacl/models/installation_manager.py:299-325 | as written: when the clear returns, the type's cache entry is gone |
| InstallationManagers.StaleLookupNeverReturns | src/yacl/models/installation_manager.py:182-190 | as written: with a stale cached name, lookup and clear call each other until the recursion limit, at every depth |
| InstallationManagers.LookupAgreesWhenNotStale | src/yacl/models/installation_manager.py:165-195 | without a stale name, the lookup as written returns at once with the corrected answer |
| WindowManagers.DefaultConfig | src/yacl/ui/window_manager.py:40-51 | the ten default keys and their values: 1200x800, minimum 800x600, position -1/-1 (centre), not maximised, decorated, resizable, not always on top |
| WindowManagers.MergedContents | src/yacl/ui/window_manager.py:215-217 | a merge copies in exactly the keys of the new state that `default_config` has, and keeps every other entry |
| WindowManagers.Merged | src/yacl/ui/window_manager.py:215-217 | a merge never adds a key outside the current state and `default_config` |
| WindowManagers.MergedWith | src/yacl/ui/window_manager.py:310-312 | a whitelisted merge keeps every current key and adds only whitelisted ones |
| WindowManagers.MergedWithCharacterised | src/yacl/ui/window_manager.py:310-312 | a state with the keys and values the merge describes is the merge |
| WindowManagers.MergedKeepsKeys | src/yacl/ui/window_manager.py:216 | a state with the default keys keeps exactly those keys, so unknown keys never get in |
| WindowManagers.RaiseTo | src/yacl/ui/window_manager.py:233-237 | one clamp changes only a value, never the key set |
| WindowManagers.Validated | src/yacl/ui/window_manager.py:229-240 | validation keeps the key set and changes nothing but width and height |
| WindowManagers.ValidatedDimensions | src/yacl/ui/window_manager.py:229-240 | with integer values, width and height each become the larger of themselves and their minimum; a size already large enough is untouched |
| WindowManagers.ValidatedIdempotent | src/yacl/ui/window_manager.py:229-240 | validating an already validated state changes nothing |
| WindowManagers.Max | src/yacl/ui/window_manager.py:352-353 | `max(a, b)` is one of the two and at least both |
| WindowManagers.PyMax | src/yacl/ui/window_manager.py:352-353 | on two integers Python's `max` is the larger |
| WindowManagers.Resized | src/yacl/ui/window_manager.py:342-363 | with integer minimums, the stored width and height become the requested values raised to the minimums |
| WindowManagers.Half | src/yacl/ui/window_manager.py:262-263 | `a // 2` rounds toward negative infinity |
| WindowManagers.CenterPosition | src/yacl/ui/window_manager.py:242-269 | the position is never negative (the fallback is 100, 100) |
| WindowManagers.CenterPositionCentres | src/yacl/ui/window_manager.py:262-265 | a window that fits is centred, its two margins differing by at most one pixel; one larger than the screen sits at 0 |
| WindowManagers.GeometryRoundTrip | src/yacl/ui/window_manager.py:173-178 | parsing a formatted geometry gives back its four integers, negative ones included |
| WindowManagers.WindowManager.constructor | src/yacl/ui/window_manager.py:39-54 | the current state starts as a copy of the defaults |
| WindowManagers.WindowManager.ValidateWindowDimensions | src/yacl/ui/window_manager.py:229-240 | the state becomes `Validated` of the old state |
| WindowManagers.WindowManager.MergeState | src/yacl/ui/window_manager.py:310-312 | the state becomes the whitelisted merge of the old state and the given one |
| WindowManagers.CopyAllowed | src/yacl/ui/window_manager.py:310-312 | copying the keys of a loaded state one at a time, in whatever order, and only those in the whitelist, gives exactly the whitelisted merge |
| WindowManagers.WindowManager.SetWindowState | src/yacl/ui/window_manager.py:301-317 | the state is merged and then validated, and keeps exactly the default keys |
| WindowManagers.WindowManager.LoadWindowState | src/yacl/ui/window_manager.py:204-227 | no file keeps the state; an unreadable or non-object file resets it to the defaults; otherwise it is merged and validated |
| WindowManagers.WindowManager.ResizeWindow | src/yacl/ui/window_manager.py:342-363 | the state becomes `Resized` of the old state and keeps the default keys |
| WindowManagers.WindowManager.GetWindowState | src/yacl/ui/window_manager.py:292-299 | the returned copy has the current state's keys and values |
| FileOps.CountTrue | src/yacl/utils/file_ops.py:356-359 | the number of set marks never exceeds the number of marks |
| FileOps.IndicatorCount | src/yacl/utils/file_ops.py:356-359 | the number of indicator entries never exceeds the number of entries |
| FileOps.CountTrueOne | src/yacl/utils/file_ops.py:356-359 | the count is positive exactly when some mark is set |
| FileOps.CountTrueTwo | src/yacl/utils/file_ops.py:356-362 | the count reaches two exactly when two different marks are set |
| FileOps.GameRootIff | src/yacl/utils/file_ops.py:326-362 | a path is a game root exactly when it is a directory with two different entries named like indicators, ignoring case |
| FileOps.IsGameRoot | src/yacl/utils/file_ops.py:326-362 | a game root is a directory with at least two entries |
| FileOps.FileIsNotGameRoot | src/yacl/utils/file_ops.py:337-338 | a file is never a game root |
| FileOps.GameRootIgnoresCase | src/yacl/utils/file_ops.py:358 | names equal up to case are both indicators or both not |
| FileOps.IsGameRootDirectory | src/yacl/utils/file_ops.py:326-362 | the loop's answer is `IsGameRoot` |
| FileOps.FirstRootChild | src/yacl/utils/file_ops.py:316-318 | the position found is that of the first child that is a game root; `None` when no child is one |
| FileOps.ExtractedRootDepth | src/yacl/utils/file_ops.py:271-324 | a result is the extract directory or a directory at most two levels below it, each level a child of the one above |
| FileOps.ExtractedRoot | src/yacl/utils/file_ops.py:271-324 | `None` exactly for a file or an empty extract directory; otherwise a chain of at most two directories |
| FileOps.EmptyExtractHasNoRoot | src/yacl/utils/file_ops.py:287-289 | an empty extract directory gives `None` |
| FileOps.ExtractedRootSeveral | src/yacl/utils/file_ops.py:313-322 | with several entries: a game-root extract directory is itself the result; else the first child game root; else the extract directory |
| FileOps.GetExtractedRootDir | src/yacl/utils/file_ops.py:271-324 | the method's result is `ExtractedRoot` |
| FileOps.RemoveDirectory | src/yacl/utils/file_ops.py:218-247 | a missing path counts as removed; otherwise the result is whether `rmtree` succeeded |
| FileOps.Names | src/yacl/utils/file_ops.py:265 | one name per entry, in listing order |
| FileOps.ListDirectory | src/yacl/utils/file_ops.py:249-269 | `[]` for a missing path or a file, otherwise the entry names in listing order |
| InputDialog.KeepBranchChars | src/yacl/ui/dialogs/input_dialog.py:122 | the filter never lengthens its input |
| InputDialog.CleanSaveName | src/yacl/ui/dialogs/input_dialog.py:129 | the save part keeps its length |
| InputDialog.KeepBranchCharsOnly | src/yacl/ui/dialogs/input_dialog.py:122 | the filter's result holds exactly the input's characters from `[a-zA-Z0-9_-]` |
| InputDialog.KeepBranchCharsAppend | src/yacl/ui/dialogs/input_dialog.py:122 | filtering a concatenation filters each part |
| InputDialog.KeepBranchCharsNoop | src/yacl/ui/dialogs/input_dialog.py:122 | the filter changes nothing exactly when every character is already admitted |
| InputDialog.LowerBranchIsClean | src/yacl/ui/dialogs/input_dialog.py:118 | lower-casing `[a-zA-Z0-9_-]` characters gives `[a-z0-9_-]` characters |
| InputDialog.LowerKeepsBranchChars | src/yacl/ui/dialogs/input_dialog.py:118-122 | a character is admitted by the filter exactly when its lower-case form is |
| InputDialog.KeepNonEmptyIff | src/yacl/ui/dialogs/input_dialog.py:122-125 | something survives the filter exactly when some character is admitted |
| InputDialog.CleanBranchChars | src/yacl/ui/dialogs/input_dialog.py:118-122 | the cleaned branch part holds only `[a-z0-9_-]` |
| InputDialog.ValidateBranchNameResult | src/yacl/ui/dialogs/input_dialog.py:103-134 | the name is accepted exactly when the stripped branch holds a space or an admitted character. Then it is the cleaned save name, a hyphen and the non-empty cleaned branch |
| InputDialog.CleanBranch | src/yacl/ui/dialogs/input_dialog.py:118-122 | cleaning never lengthens the branch name |
| InputDialog.ValidateBranchName | src/yacl/ui/dialogs/input_dialog.py:103-134 | a name is returned exactly when the cleaned branch part is non-empty; it is the save part, a hyphen and that branch part |
| InputDialog.BlankBranchRejected | src/yacl/ui/dialogs/input_dialog.py:114-115 | an empty or whitespace-only branch name gives `None` |
| InputDialog.CleanNotSpace | src/yacl/ui/dialogs/input_dialog.py:118 | a clean character is never whitespace |
| InputDialog.CleanUnchanged | src/yacl/ui/dialogs/input_dialog.py:118 | replacing spaces and lower-casing change nothing on a clean string |
| InputDialog.CleanIsFixed | src/yacl/ui/dialogs/input_dialog.py:114-125 | a clean string is its own cleaning |
| InputDialog.CleanBranchIdempotent | src/yacl/ui/dialogs/input_dialog.py:118-122 | cleaning twice is cleaning once |
| InputDialog.ValidateAgain | src/yacl/ui/dialogs/input_dialog.py:103-134 | validating an accepted branch's cleaned part again gives the same name |
| InputDialog.ReplaceAppend | src/yacl/ui/dialogs/input_dialog.py:118 | `replace` distributes over concatenation |
| InputDialog.CleanAppend | src/yacl/ui/dialogs/input_dialog.py:118-122 | the concatenation of clean strings is clean |
| InputDialog.InteriorSpaceBecomesUnderscore | src/yacl/ui/dialogs/input_dialog.py:118-122 | a space between two clean words becomes an underscore instead of being dropped |
| InputDialog.SavePrefixUnfiltered | src/yacl/ui/dialogs/input_dialog.py:129-132 | the save part is not filtered: its other characters appear unchanged before the hyphen |
| CheckpointDialogs.CheckpointDialog.constructor | src/yacl/views/dialogs/checkpoint_dialog.py:26-51 | no result yet, open, nothing delivered |
| CheckpointDialogs.CheckpointDialog.CloseDialog | src/yacl/views/dialogs/checkpoint_dialog.py:219-223 | the dialog closes and, with a callback, the result is passed to it |
| CheckpointDialogs.CheckpointDialog.OnCreateClicked | src/yacl/views/dialogs/checkpoint_dialog.py:179-212 | a rejected input shows its error and changes nothing. An accepted one records the result, closes and delivers it |
| CheckpointDialogs.CheckpointDialog.OnCancelClicked | src/yacl/views/dialogs/checkpoint_dialog.py:214-217 | the result becomes `None`, the dialog closes, and `None` is delivered |
| CheckpointDialogs.BranchDialog.constructor | src/yacl/views/dialogs/checkpoint_dialog.py:268-292 | no result yet, open, nothing delivered |
| CheckpointDialogs.BranchDialog.CloseDialog | src/yacl/views/dialogs/checkpoint_dialog.py:410-414 | the dialog closes and, with a callback, the result is passed to it |
| CheckpointDialogs.BranchDialog.OnCreateClicked | src/yacl/views/dialogs/checkpoint_dialog.py:384-403 | a rejected input shows its error and changes nothing. An accepted one records the stripped name, closes and delivers it |
| CheckpointDialogs.BranchDialog.OnCancelClicked | src/yacl/views/dialogs/checkpoint_dialog.py:405-408 | the result becomes `None`, the dialog closes, and `None` is delivered |
| CheckpointDialogs.EmptyNameInvalid | src/yacl/views/dialogs/checkpoint_dialog.py:235-236 | the empty name is not valid |
| CheckpointDialogs.IsValidBranchName | src/yacl/views/dialogs/checkpoint_dialog.py:225-240 | a valid name is non-empty and admitted up to a possible final newline |
| CheckpointDialogs.CheckpointOutcome | src/yacl/views/dialogs/checkpoint_dialog.py:179-212 | a rejection shows one of the three messages; an accepted result holds the stripped non-empty message, and a valid branch name exactly when one was requested |
| CheckpointDialogs.BranchOutcome | src/yacl/views/dialogs/checkpoint_dialog.py:384-403 | a rejection shows the missing or the invalid message; an accepted name is the stripped entry and is valid |
| CheckpointDialogs.StrippedValidIff | src/yacl/views/dialogs/checkpoint_dialog.py:225-240 | a name with nothing to strip is valid exactly when it is a non-empty run of `[a-zA-Z0-9_-]` |
| CheckpointDialogs.StrippedTextValidIff | src/yacl/views/dialogs/checkpoint_dialog.py:225-240 | the same holds for every stripped entry |
| CheckpointDialogs.TrailingNewlineAccepted | src/yacl/views/dialogs/checkpoint_dialog.py:239-240 | `$` also matches before a final newline, so a valid name followed by one passes |
| CheckpointDialogs.BranchCharNotSpace | src/yacl/views/dialogs/checkpoint_dialog.py:239-240 | no admitted character is whitespace |
| CheckpointDialogs.CleanBranchIsValid | src/yacl/views/dialogs/checkpoint_dialog.py:225-240 | a branch part made by `validate_branch_name` passes the validator |
| CheckpointDialogs.MessageCheckedFirst | src/yacl/views/dialogs/checkpoint_dialog.py:182-186 | a blank message is reported first, whatever the branch inputs |
| CheckpointDialogs.BranchIgnoredUnlessRequested | src/yacl/views/dialogs/checkpoint_dialog.py:188-189 | without the checkbox the branch entry is ignored and the result has no branch name |
| CheckpointDialogs.CheckpointAcceptedIff | src/yacl/views/dialogs/checkpoint_dialog.py:179-212 | accepted exactly when the stripped message is non-empty and any requested branch is a valid stripped name; the result holds the stripped texts |
| CheckpointDialogs.CheckpointBranchErrors | src/yacl/views/dialogs/checkpoint_dialog.py:191-203 | for a requested branch, a blank name is reported before a malformed one |
| CheckpointDialogs.BranchOutcomeIff | src/yacl/views/dialogs/checkpoint_dialog.py:384-403 | accepted exactly when the stripped name is valid, and the result is that name; blank before malformed |
| CheckpointDialogs.DialogsAgree | src/yacl/views/dialogs/checkpoint_dialog.py:191-203 | both dialogs accept the same requested branch names and show the same errors |
| Text.LStrip | src/yacl/utils/release_search.py:61 | `lstrip()` removes a prefix made only of whitespace, and what remains does not start with whitespace |
| Text.RStrip | src/yacl/utils/release_search.py:61 | `rstrip()` removes a suffix made only of whitespace, and what remains does not end with whitespace |
| Text.StripShape | src/yacl/views/dialogs/checkpoint_dialog.py:182-189 | a stripped string has no whitespace at either end, and stripping again changes nothing |
| Text.StripEmptyIff | src/yacl/views/dialogs/checkpoint_dialog.py:182-183 | `not s.strip()` holds exactly when every character is whitespace |
| Text.Lower | src/yacl/utils/release_search.py:61 | `lower()` keeps the length and lower-cases each ASCII letter |
| Text.LowerIdempotent | src/yacl/utils/release_search.py:61 | lower-casing twice is lower-casing once |
| Text.ReplaceChar | src/yacl/ui/dialogs/input_dialog.py:118 | `replace` keeps the length and swaps exactly the given character |
| Text.ContainsAt | src/yacl/utils/release_search.py:66 | `q in s` holds exactly when `q` occurs in `s` at some position |
| Text.ParseIntToString | src/yacl/ui/window_manager.py:173-178 | `int(str(i)) == i` for every integer |
| Text.ParseInt | src/yacl/ui/window_manager.py:176-178 | a parsed number's text is non-empty, a negative one starts with `-`, and an unsigned one is all digits |
| Text.IntToString | src/yacl/ui/window_manager.py:131 | `str(i)` is never empty; `ParseIntToString` is its inverse |
| Text.Split | src/yacl/ui/window_manager.py:175-178 | `split` gives one piece exactly when the separator does not occur |
| Text.StrLessTransitive | src/yacl/utils/release_search.py:90 | string order is transitive |
| Text.StrLessTotal | src/yacl/utils/release_search.py:90 | two different strings are ordered one way or the other |
| Text.StrLessAsymmetric | src/yacl/utils/release_search.py:90 | string order is asymmetric |
| Json.Number | src/yacl/services/cataclysm_db.py:265 | booleans and integers are the values with a number |
| Json.PyLess | src/yacl/services/cataclysm_db.py:265 | numbers compare by value (booleans as 0 and 1), strings in code-point order, lists lexicographically; an object or `None` on either side is incomparable (`TypeError`) |
| Json.PyLessIrreflexive | src/yacl/services/cataclysm_db.py:265 | no comparable value is less than itself |
| Json.PyEqReflexive | src/yacl/services/cataclysm_db.py:265 | every value is `==` to itself |
| Json.ListLessSelf | src/yacl/services/cataclysm_db.py:265 | a list is not less than itself |
| Json.ListLessDecides | src/yacl/services/cataclysm_db.py:265 | lists compare at their first unequal elements, or by length when one is a prefix of the other |
| Json.PyLessRejects | src/yacl/services/cataclysm_db.py:265 | comparing with a dict or `None` raises `TypeError` |
| Json.Get | src/yacl/services/cataclysm_db.py:262-263 | `d.get(key, default)` gives the stored value when the key is present, else the default |
| OrderedMaps.ValuesOf | src/yacl/models/release_manager.py:362-364 | `list(d.values())` lists the values in key order |
| OrderedMaps.Put | src/yacl/models/installation_manager.py:675 | `d[k] = v` stores the value; a new key goes last and an existing key keeps its place |
| OrderedMaps.Without | src/yacl/models/release_manager.py:145-146 | the other keys, in order and still without duplicates |
| OrderedMaps.PrependUpdate | src/yacl/models/release_manager.py:145-146 | `u = {k: v}; u.update(d)` puts `k` first, keeps `d`'s value when it has `k`, and keeps the other keys in order |

## Left out

- The timeline engine (checkpoints, branches, restore): every method of `src/yacl/models/timeline_manager.py` only logs and returns `True`, and `src/yacl/models/timeline.py` holds bare records. Only the dialogs' input handling around it is modelled.
- Git operations (`git_ops.py`): thin calls into a foreign library.
- Tk widgets, views and controllers: building the dialogs, `_on_create_branch_toggled`, focus changes, `show_modal` and the `show_*_dialog` helpers are widget calls. The window manager's root creation and `root.state()` are left out for the same reason.
- HTTP: the GitHub API call, the remote database download and the downloader. What they return is a parameter.
- Files and archives: JSON reads and writes (`save_user`, `save_core`, `save_game_database`, `GameInstallation.save`/`load`, the window-state file), zip and tar extraction, `shutil` copies, moves and deletes. Their outcomes are parameters.
- `_load_installed_games` and `reload_installed_games`: the disk scan's result is a parameter (`onDisk`, `reloaded`).
- The installation flow around the bookkeeping (`start_complete_installation_flow`, `_start_download`, `_on_download_finished`, `install_game`, `_extract_and_install`, `_move_to_final_location`, `_cleanup_archive`, `_update_installation_progress`): threads, downloads and floating-point progress.
- `get_active_installation_name` and `get_active_installation_info`: thin wrappers over `get_active_installation`.
- `fetch_releases`' settings write of the fetch time and its `num_releases_to_request` read, and `initialize_release_manager`'s write of `datetime.min` for a type with no stored time: string formatting of times and I/O. The stored fetch times are a parameter.
- The release database load in `initialize_release_manager` (`_load_all_releases_from_database`): file I/O.
- The event bus: emitted events are a ghost log; subscribers are not modelled.
- Text.Lower: models `str.lower()` on ASCII letters only. Python also lower-cases other letters; for example the Kelvin sign becomes `k`, which the branch-name filter would then keep, while the model drops it.
- Text.ParseInt: `int(s)` is modelled for an optional sign and decimal digits; Python's surrounding whitespace and digit-group underscores are not accepted.
- Json.Json: JSON numbers are integers only; floats are not modelled. Python's `True == 1` makes `1` and `True` the same dict key, and the model keeps them apart.
- CataclysmDb.Version: index entries are modelled as JSON objects; an entry of another type makes `.get` raise `AttributeError` in the source, which the model does not represent.
- CataclysmDb.IndexByTag: the downloaded data is modelled as a JSON list of releases. The failure of a non-list response is not modelled.
- InstallationManagers.InstallationManager.RemoveInstallation: the error messages of caught exceptions are the exception's class name (`KeyError`, `OSError`) rather than Python's rendering of the exception.
- InstallationManagers.GetActiveAsWritten: the as-written lookup is modelled only up to Python's recursion limit. What the handlers do while the `RecursionError` unwinds is not modelled (the outer frames then go on to delete the entry).
- InstallationManagers.InstallationManager.SetCurrentGameTypeAsWritten: an event manager is taken to be present, as the constructor always receives one.
- ReleaseManagers.ReleaseManager.FetchReleases: every fetched release's channel is required to be a member of `ReleaseChannel`, which the release type guarantees in the source.
- Settings.SettingsManager.Initialize: it calls the as-written `LoadCoreSettings`, so game types are registered from the core defaults.
- GameTypes.FromDict: the model's `GameType` has string fields, so a non-string `name`, `display_name`, `github_repo` or `executable_name` value gives `Err("TypeError")`. The source's unchecked dataclass stores such a value as given.
- GameTypes.JsonToStrings: fails on a non-string platform value for the same reason. The source keeps the `executable_name` dictionary as read.
- Installations.StringField: fails on a stored non-string value, which `data.get` in the source returns unchanged.
- Installations.IntField: fails on a stored non-integer value (for example `"12"` or `null`), which `data.get` in the source returns unchanged.
- Installations.FromDict: because of the two field readers above, a record with a mistyped field is rejected, while the source loads it.
- Settings.ParsedPrefix: stops at the first entry `FromDict` rejects, so it also stops at the mistyped entries the source would register (for example a numeric `name`).
- Settings.RegisterGameTypes: registers `ParsedPrefix`'s types, so it inherits the same gap.
- Settings.Overlay: of the pairs `dict.update` accepts, one whose key is a number, a boolean or `null` is dropped, since settings keys are strings here; Python stores it under that non-string key. A two-key object used as a pair is treated as rejected, because the key order of a JSON object is not modelled.
- InstallationManagers.NameSetting: the active-build cache holds strings only, so a truthy non-string setting (for example `5` or `true`) is skipped, while the source caches it.
- CataclysmDb.Synced: every entry written in one sync is stamped with the same `now`; the source calls `datetime.now()` once per entry.
- Paths.Join: names are taken to be single path components; pathlib's handling of names that contain `/` or are absolute is not modelled.
- Logging, the `ThreadPoolExecutor`, `get_directory_size`, `validate_archive` and `copy_directory`/`move_directory`: I/O or threads outside the modelled decisions.

## Findings

| source | as written | input that shows it | evidently intended | confidence | as-written member | corrected member |
|---|---|---|---|---|---|---|
| src/yacl/models/installation_manager.py:182-190, 313-314 | a stale cached name is evicted by calling `clear_active_installation`, which first calls `get_active_installation` again before deleting anything, so the two recurse until `RecursionError` | `active_installations = {t: "old"}` with `installed_games[t]` non-empty and without `"old"` | delete the stale entry and return `None` | not executed | InstallationManagers.StaleLookupNeverReturns | InstallationManagers.InstallationManager.GetActiveInstallation |
| src/yacl/models/installation_manager.py:915-916 | `was_active` compares the `GameInstallation` object with the name string, so it is always false | removing the active build: cache `{t: "a"}`, `remove_installation(t, "a")` | compare the active build's `name`, then auto-select another build | not executed | InstallationManagers.InstallationManager.RemoveInstallation | InstallationManagers.InstallationManager.RemoveInstallationIntended |
| src/yacl/models/installation_manager.py:153-156 | `Events.CURRENT_GAME_TYPE_CHANGED` is not defined by `Events`, so the lookup raises after the type and the setting changed. The method returns `False` and sends no event | any change of game type, e.g. from `dda` to `bn` | define the event; return `True` and send one event | not executed | InstallationManagers.InstallationManager.SetCurrentGameTypeAsWritten | InstallationManagers.InstallationManager.SetCurrentGameType |
| src/yacl/services/settings.py:94-97, 143-145, 335 | game types are registered while `_is_loaded` is still false, so `read_core` answers from the defaults file and the `game_types` of the core settings file are ignored | a core settings file `{"game_types": [g.to_dict()]}` and defaults without `game_types` | register the game types of the core layer just loaded | not executed | Settings.CoreFileGameTypesIgnored | Settings.SettingsManager.LoadCoreSettingsIntended |
