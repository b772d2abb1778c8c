/**
 * The settings store: two layers of key/value settings (user and core), each
 * the defaults file overlaid by the settings file, behind a loaded flag.
 * Loading the core layer also registers the game types listed under
 * `game_types`.
 */
module Settings {
  import opened Wrappers
  import opened Json
  import opened GameTypes

  /** What one element of a sequence given to `dict.update` contributes. */
  datatype PairOutcome =
    | Pair(key: string, value: Json)  // a two-item sequence with a string key
    | Hidden                          // a two-item list whose key is a number, a boolean or `None`
    | Rejected                        // anything else: `update` raises

  /**
   * `dict.update` on a sequence takes each element as a (key, value) pair:
   * a two-item list, or a two-character string (its characters). A list or
   * dict as key is unhashable, and every other element has the wrong length
   * or is no sequence, so `update` raises.
   */
  function UpdatePair(item: Json): (r: PairOutcome)
    ensures r.Pair? ==> (item.JList? && |item.items| == 2 && item.items[0] == JString(r.key) && item.items[1] == r.value)
                        || (item.JString? && |item.s| == 2 && r.key == [item.s[0]] && r.value == JString([item.s[1]]))
    ensures item.JList? && |item.items| == 2 && item.items[0].JString? ==> r.Pair?
    ensures item.JString? && |item.s| == 2 ==> r.Pair?
    ensures (item.JInt? || item.JBool? || item.JNull?) ==> r.Rejected?
  {
    match item
    case JList(xs) =>
      if |xs| != 2 then Rejected
      else if xs[0].JString? then Pair(xs[0].s, xs[1])
      else if xs[0].JList? || xs[0].JObject? then Rejected
      else Hidden
    case JString(t) => if |t| == 2 then Pair([t[0]], JString([t[1]])) else Rejected
    case _ => Rejected
  }

  /** The entries `update` adds for the pairs `items`, later pairs winning; `None` when one is rejected. */
  function PairUpdates(items: seq<Json>): (r: Option<map<string, Json>>)
    decreases |items|
  {
    if items == [] then Some(map[])
    else
      var front := PairUpdates(items[..|items| - 1]);
      match UpdatePair(items[|items| - 1])
      case Rejected => None
      case Hidden => front
      case Pair(k, v) => if front.None? then None else Some(front.value[k := v])
  }

  /** The update of a sequence of pairs fails exactly when some element is rejected. */
  lemma {:induction false} PairUpdatesFail(items: seq<Json>)
    ensures PairUpdates(items).None? <==> exists i :: 0 <= i < |items| && UpdatePair(items[i]).Rejected?
    decreases |items|
  {
    if items != [] {
      var m := |items| - 1;
      PairUpdatesFail(items[..m]);
      assert forall i :: 0 <= i < m ==> items[..m][i] == items[i];
    }
  }

  /** A successful update of pairs adds exactly the keys of its pairs. */
  lemma {:induction false} PairUpdatesKeys(items: seq<Json>)
    ensures PairUpdates(items).Some? ==> forall k :: k in PairUpdates(items).value <==>
              exists i :: 0 <= i < |items| && UpdatePair(items[i]).Pair? && UpdatePair(items[i]).key == k
    decreases |items|
  {
    if items != [] {
      var m := |items| - 1;
      PairUpdatesKeys(items[..m]);
      assert forall i :: 0 <= i < m ==> items[..m][i] == items[i];
    }
  }

  /** In a successful update of pairs a key holds the value of its last pair. */
  lemma {:induction false} PairUpdatesLastWins(items: seq<Json>, i: nat)
    requires i < |items| && UpdatePair(items[i]).Pair?
    requires forall j :: i < j < |items| ==> UpdatePair(items[j]).Pair? ==> UpdatePair(items[j]).key != UpdatePair(items[i]).key
    ensures PairUpdates(items).Some? ==> UpdatePair(items[i]).key in PairUpdates(items).value
                                         && PairUpdates(items).value[UpdatePair(items[i]).key] == UpdatePair(items[i]).value
    decreases |items|
  {
    var m := |items| - 1;
    if i < m {
      assert forall j :: 0 <= j < m ==> items[..m][j] == items[j];
      PairUpdatesLastWins(items[..m], i);
    }
  }

  /**
   * The entries `dict.update(v)` adds: a dict's own, those of a sequence
   * of pairs, nothing for an empty string; `None` when `update` raises.
   */
  function UpdateEntries(v: Json): (r: Option<map<string, Json>>)
    ensures v.JObject? ==> r == Some(v.fields)
    ensures v.JList? ==> r == PairUpdates(v.items)
    ensures v.JString? ==> (r.Some? <==> v.s == "") && (r.Some? ==> r.value == map[])
    ensures v.JInt? || v.JBool? || v.JNull? ==> r.None?
  {
    match v
    case JObject(f) => Some(f)
    case JList(items) => PairUpdates(items)
    case JString(t) => if t == "" then Some(map[]) else None
    case _ => None
  }

  /** A settings file holding `[["theme", "dark"]]` sets `theme` over the defaults. */
  lemma PairListFileApplies(defaults: map<string, Json>)
    ensures LoadSucceeds(Parsed(JList([JList([JString("theme"), JString("dark")])])))
    ensures Overlay(defaults, Parsed(JList([JList([JString("theme"), JString("dark")])])))
            == defaults["theme" := JString("dark")]
  {
    var items := [JList([JString("theme"), JString("dark")])];
    assert items[..0] == [];
    assert PairUpdates(items) == Some(map["theme" := JString("dark")]);
  }

  /** `dict.update(v)` does not raise. */
  predicate UpdateAccepts(v: Json)
    ensures v.JObject? ==> UpdateAccepts(v)
    ensures v.JInt? || v.JBool? || v.JNull? ==> !UpdateAccepts(v)
    ensures v.JString? ==> (UpdateAccepts(v) <==> v.s == "")
  {
    UpdateEntries(v).Some?
  }

  /**
   * What `_load_*_settings` leaves in the current layer: a copy of the
   * defaults, updated with the entries of the file's value. A missing file, a
   * file that cannot be read and a value `update` rejects all leave the
   * defaults (a rejected update is undone by the handler's reset).
   */
  function Overlay(defaults: map<string, Json>, file: FileState): (r: map<string, Json>)
    ensures file.Parsed? && UpdateAccepts(file.value) ==>
              var e := UpdateEntries(file.value).value;
              (forall k :: k in r <==> k in defaults || k in e)
              && (forall k :: k in e ==> r[k] == e[k])
              && (forall k :: k in defaults && k !in e ==> r[k] == defaults[k])
    ensures !(file.Parsed? && UpdateAccepts(file.value)) ==> r == defaults
  {
    if file.Parsed? && UpdateAccepts(file.value) then defaults + UpdateEntries(file.value).value else defaults
  }

  /** Whether `_load_*_settings` gets past reading the file (and on to registering game types). */
  predicate LoadSucceeds(file: FileState) {
    file.Missing? || (file.Parsed? && UpdateAccepts(file.value))
  }

  /** The game types `_initialize_game_types` builds from `data`: entries up to the first one `from_dict` rejects. */
  function ParsedGameTypes(data: Json): (gs: seq<GameType>)
    ensures !data.JList? ==> gs == []
  {
    if data.JList? then ParsedPrefix(data.items) else []
  }

  function ParsedPrefix(items: seq<Json>): (gs: seq<GameType>)
    ensures |gs| <= |items|
    ensures forall i :: 0 <= i < |gs| ==> items[i].JObject? && FromDict(items[i].fields) == Ok(gs[i])
    ensures |gs| < |items| ==> !(items[|gs|].JObject? && FromDict(items[|gs|].fields).Ok?)
  {
    if items != [] && items[0].JObject? && FromDict(items[0].fields).Ok? then
      [FromDict(items[0].fields).value] + ParsedPrefix(items[1..])
    else []
  }

  /** `add_game_type` applied to each of `gs` in turn. */
  function AddTypes(types: seq<GameType>, gs: seq<GameType>): (r: seq<GameType>)
    decreases |gs|
  {
    if gs == [] then types else AddTypes(AddType(types, gs[0]), gs[1..])
  }

  /** Registering any number of game types keeps `other` last and names unique, and loses no type. */
  lemma {:induction false} AddTypesKeepsShape(types: seq<GameType>, gs: seq<GameType>)
    requires RegistryShape(types)
    ensures RegistryShape(AddTypes(types, gs))
    ensures |AddTypes(types, gs)| >= |types|
    ensures forall g :: g in types ==> g in AddTypes(types, gs)
    decreases |gs|
  {
    if gs != [] {
      AddTypeKeepsShape(types, gs[0]);
      forall g | g in types ensures g in AddType(types, gs[0]) {
        if !NameUsed(types, gs[0].name) {
          InsertBeforeLastKeeps(types, gs[0], g);
        }
      }
      AddTypesKeepsShape(AddType(types, gs[0]), gs[1..]);
    }
  }

  /**
   * One layer's read: before loading the defaults file answers (falling back
   * to the caller's default); afterwards only the current layer does.
   */
  function ReadLayer(loaded: bool, current: map<string, Json>, defaults: map<string, Json>,
                     name: string, default: Json): (r: Json)
    ensures !loaded ==> r == Get(defaults, name, default)
    ensures loaded && name in current ==> r == current[name]
    ensures loaded && name !in current ==> r == default
  {
    if !loaded then Get(defaults, name, default) else Get(current, name, default)
  }

  class SettingsManager {
    /** The contents of `user_defaults.json` and `core_defaults.json` (`{}` when absent or unreadable). */
    const userDefaults: map<string, Json>
    const coreDefaults: map<string, Json>
    var currentUser: map<string, Json>
    var currentCore: map<string, Json>
    var isLoaded: bool

    constructor (userDefaults: map<string, Json>, coreDefaults: map<string, Json>)
      ensures this.userDefaults == userDefaults && this.coreDefaults == coreDefaults
      ensures currentUser == map[] && currentCore == map[] && !isLoaded
    {
      this.userDefaults := userDefaults;
      this.coreDefaults := coreDefaults;
      currentUser := map[];
      currentCore := map[];
      isLoaded := false;
    }

    /** `read_user`. */
    function ReadUser(name: string, default: Json): (r: Json)
      reads this
      ensures !isLoaded ==> r == Get(userDefaults, name, default)
      ensures isLoaded && name in currentUser ==> r == currentUser[name]
      ensures isLoaded && name !in currentUser ==> r == default
    {
      ReadLayer(isLoaded, currentUser, userDefaults, name, default)
    }

    /** `read_core`. */
    function ReadCore(name: string, default: Json): (r: Json)
      reads this
      ensures !isLoaded ==> r == Get(coreDefaults, name, default)
      ensures isLoaded && name in currentCore ==> r == currentCore[name]
      ensures isLoaded && name !in currentCore ==> r == default
    {
      ReadLayer(isLoaded, currentCore, coreDefaults, name, default)
    }

    /** `read` is `read_user`. */
    function Read(name: string, default: Json): (r: Json)
      reads this
      ensures !isLoaded ==> r == Get(userDefaults, name, default)
      ensures isLoaded ==> r == Get(currentUser, name, default)
    {
      ReadUser(name, default)
    }

    /** `store_user`: refused before loading; otherwise sets one user key and nothing else. */
    method StoreUser(name: string, value: Json) returns (ok: bool)
      modifies this
      ensures ok == old(isLoaded)
      ensures ok ==> currentUser == old(currentUser)[name := value]
      ensures !ok ==> currentUser == old(currentUser)
      ensures currentCore == old(currentCore) && isLoaded == old(isLoaded)
      ensures ok ==> forall d :: ReadUser(name, d) == value
    {
      if !isLoaded {
        return false;
      }
      currentUser := currentUser[name := value];
      return true;
    }

    /** `store_core`: the same on the core layer. */
    method StoreCore(name: string, value: Json) returns (ok: bool)
      modifies this
      ensures ok == old(isLoaded)
      ensures ok ==> currentCore == old(currentCore)[name := value]
      ensures !ok ==> currentCore == old(currentCore)
      ensures currentUser == old(currentUser) && isLoaded == old(isLoaded)
      ensures ok ==> forall d :: ReadCore(name, d) == value
    {
      if !isLoaded {
        return false;
      }
      currentCore := currentCore[name := value];
      return true;
    }

    /** `store` is `store_user`. */
    method Store(name: string, value: Json) returns (ok: bool)
      modifies this
      ensures ok == old(isLoaded)
      ensures ok ==> currentUser == old(currentUser)[name := value]
      ensures !ok ==> currentUser == old(currentUser)
      ensures currentCore == old(currentCore) && isLoaded == old(isLoaded)
    {
      ok := StoreUser(name, value);
    }

    /** `_load_user_settings`, given what reading `user_settings.json` yields. */
    method LoadUserSettings(file: FileState)
      modifies this
      ensures currentUser == Overlay(userDefaults, file)
      ensures currentCore == old(currentCore) && isLoaded == old(isLoaded)
    {
      currentUser := userDefaults;
      if file.Parsed? && UpdateAccepts(file.value) {
        currentUser := currentUser + UpdateEntries(file.value).value;
      }
    }

    /**
     * `_initialize_game_types`: reads `game_types` through `read_core` (so
     * from the defaults file while not yet loaded) and registers each entry.
     */
    method InitializeGameTypes(registry: Registry)
      requires registry.Valid()
      modifies registry
      ensures registry.Valid()
      ensures registry.all == AddTypes(old(registry.all), ParsedGameTypes(ReadCore("game_types", JList([]))))
    {
      RegisterGameTypes(registry, ReadCore("game_types", JList([])));
    }

    /** `_load_core_settings`: the core layer as for user settings; game types are registered unless reading failed. */
    method LoadCoreSettings(file: FileState, registry: Registry)
      requires registry.Valid()
      modifies this, registry
      ensures registry.Valid()
      ensures currentCore == Overlay(coreDefaults, file)
      ensures currentUser == old(currentUser) && isLoaded == old(isLoaded)
      ensures LoadSucceeds(file) ==>
                registry.all == AddTypes(old(registry.all), ParsedGameTypes(ReadCore("game_types", JList([]))))
      ensures LoadSucceeds(file) && !isLoaded ==>
                registry.all == AddTypes(old(registry.all), ParsedGameTypes(Get(coreDefaults, "game_types", JList([]))))
      ensures !LoadSucceeds(file) ==> registry.all == old(registry.all)
    {
      currentCore := coreDefaults;
      if file.Parsed? && !UpdateAccepts(file.value) {
        return;
      }
      if file.Unreadable? {
        return;
      }
      if file.Parsed? {
        currentCore := currentCore + UpdateEntries(file.value).value;
      }
      InitializeGameTypes(registry);
    }

    /**
     * `_load_core_settings` as evidently intended: the game types come from
     * the core layer just loaded, so those listed only in the settings file
     * are registered as well.
     */
    method LoadCoreSettingsIntended(file: FileState, registry: Registry)
      requires registry.Valid()
      modifies this, registry
      ensures registry.Valid()
      ensures currentCore == Overlay(coreDefaults, file)
      ensures currentUser == old(currentUser) && isLoaded == old(isLoaded)
      ensures LoadSucceeds(file) ==>
                registry.all == AddTypes(old(registry.all), ParsedGameTypes(Get(currentCore, "game_types", JList([]))))
      ensures !LoadSucceeds(file) ==> registry.all == old(registry.all)
    {
      currentCore := coreDefaults;
      if file.Parsed? && !UpdateAccepts(file.value) {
        return;
      }
      if file.Unreadable? {
        return;
      }
      if file.Parsed? {
        currentCore := currentCore + UpdateEntries(file.value).value;
      }
      RegisterGameTypes(registry, Get(currentCore, "game_types", JList([])));
    }

    /**
     * `initialize(settings_dir)`: `mkdirOk` says whether the settings
     * directory can be created; the two files are read as given.
     */
    method Initialize(mkdirOk: bool, userFile: FileState, coreFile: FileState, registry: Registry) returns (ok: bool)
      requires registry.Valid()
      modifies this, registry
      ensures registry.Valid()
      ensures ok == mkdirOk
      ensures ok ==> isLoaded
      ensures ok ==> currentUser == Overlay(userDefaults, userFile) && currentCore == Overlay(coreDefaults, coreFile)
      ensures !ok ==> currentUser == old(currentUser) && currentCore == old(currentCore) && isLoaded == old(isLoaded)
      ensures ok && LoadSucceeds(coreFile) && !old(isLoaded) ==>
                registry.all == AddTypes(old(registry.all), ParsedGameTypes(Get(coreDefaults, "game_types", JList([]))))
      ensures ok && LoadSucceeds(coreFile) && old(isLoaded) ==>
                registry.all == AddTypes(old(registry.all),
                                         ParsedGameTypes(Get(Overlay(coreDefaults, coreFile), "game_types", JList([]))))
      ensures !(ok && LoadSucceeds(coreFile)) ==> registry.all == old(registry.all)
    {
      if !mkdirOk {
        return false;
      }
      LoadUserSettings(userFile);
      LoadCoreSettings(coreFile, registry);
      isLoaded := true;
      return true;
    }

    /** `get_all_user_settings`: a copy (maps are values, so later changes on either side are not shared). */
    function GetAllUserSettings(): (r: map<string, Json>)
      reads this
      ensures forall k :: k in r <==> k in currentUser
      ensures forall k :: k in r ==> r[k] == currentUser[k]
    {
      currentUser
    }

    function GetAllCoreSettings(): (r: map<string, Json>)
      reads this
      ensures forall k :: k in r <==> k in currentCore
      ensures forall k :: k in r ==> r[k] == currentCore[k]
    {
      currentCore
    }

    /** `get_all_settings` is `get_all_user_settings`. */
    function GetAllSettings(): (r: map<string, Json>)
      reads this
      ensures r == GetAllUserSettings()
    {
      currentUser
    }

    method ResetUserToDefaults() returns (ok: bool)
      modifies this
      ensures ok && currentUser == userDefaults
      ensures currentCore == old(currentCore) && isLoaded == old(isLoaded)
    {
      currentUser := userDefaults;
      return true;
    }

    method ResetCoreToDefaults() returns (ok: bool)
      modifies this
      ensures ok && currentCore == coreDefaults
      ensures currentUser == old(currentUser) && isLoaded == old(isLoaded)
    {
      currentCore := coreDefaults;
      return true;
    }

    method ResetToDefaults() returns (ok: bool)
      modifies this
      ensures ok && currentUser == userDefaults && currentCore == coreDefaults
      ensures isLoaded == old(isLoaded)
    {
      var u := ResetUserToDefaults();
      var c := ResetCoreToDefaults();
      ok := u && c;
    }
  }

  /**
   * Registers each game type listed in `data` in turn, stopping at the first
   * entry `from_dict` rejects; anything but a list raises before anything is
   * added.
   */
  method RegisterGameTypes(registry: Registry, data: Json)
    requires registry.Valid()
    modifies registry
    ensures registry.Valid()
    ensures registry.all == AddTypes(old(registry.all), ParsedGameTypes(data))
  {
    if !data.JList? {
      return;
    }
    var items := data.items;
    ghost var gs := ParsedPrefix(items);
    ghost var start := registry.all;
    var i := 0;
    while i < |items|
      invariant 0 <= i <= |items|
      invariant registry.Valid()
      invariant AddTypes(start, gs) == AddTypes(registry.all, ParsedPrefix(items[i..]))
      decreases |items| - i
    {
      assert items[i..][1..] == items[i + 1..];
      if !items[i].JObject? || FromDict(items[i].fields).Err? {
        return;
      }
      var g := FromDict(items[i].fields).value;
      var _ := registry.AddGameType(g);
      i := i + 1;
    }
  }

  /**
   * With no game types among the defaults and one listed in the core
   * settings file, the loaded core layer lists it, yet loading as written
   * (which reads the defaults) registers nothing.
   */
  lemma CoreFileGameTypesIgnored(g: GameType)
    ensures ParsedGameTypes(Get(map[], "game_types", JList([]))) == []
    ensures ParsedGameTypes(Get(Overlay(map[], Parsed(JObject(map["game_types" := JList([JObject(ToDict(g))])]))),
                                "game_types", JList([]))) == [g]
  {
    FromDictToDict(g);
    var items := [JObject(ToDict(g))];
    assert ParsedPrefix(items[1..]) == [];
  }

  /** Loading keeps every default the file does not override, and takes every value the file has. */
  lemma OverlayKeepsDefaults(defaults: map<string, Json>, fields: map<string, Json>, k: string)
    ensures k in defaults && k !in fields ==> Overlay(defaults, Parsed(JObject(fields)))[k] == defaults[k]
    ensures k in fields ==> Overlay(defaults, Parsed(JObject(fields)))[k] == fields[k]
    ensures k in Overlay(defaults, Parsed(JObject(fields))) <==> k in defaults || k in fields
  {
  }
}
