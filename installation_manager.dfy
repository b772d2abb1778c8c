/**
 * The installation manager's bookkeeping: for each game type the installed
 * builds (an insertion-ordered dict from name to metadata) and the cached
 * name of the active build; the current game type; the table of pending
 * installation flows. Events sent on the event bus are recorded in a ghost
 * log.
 */
module InstallationManagers {
  import opened Wrappers
  import opened Json
  import opened OrderedMaps
  import opened GameTypes
  import opened Releases
  import opened Installations
  import opened Settings
  import opened Paths
  import opened Helpers

  /** The builds of one game type, by name, in the order they were loaded. */
  type Installs = OrderedMap<string, GameInstallation>

  datatype Event =
    | CurrentGameTypeChanged(oldType: GameType, newType: GameType)
    | ActiveInstallationChanged(gameType: GameType, oldActive: Option<GameInstallation>,
                                newActive: Option<GameInstallation>, reason: string)

  /** Every per-type dict is well formed and maps each name to the build of that name. */
  ghost predicate InstalledValid(installed: map<GameType, Installs>) {
    forall t :: t in installed ==>
      installed[t].Valid() && forall k :: k in installed[t].values ==> installed[t].values[k].name == k
  }

  // ---- the active-installation lookup ----

  /** The cached name is set (non-empty) and the type has an installed dict. */
  predicate Cached(active: map<GameType, string>, installed: map<GameType, Installs>, t: GameType) {
    t in active && active[t] != "" && t in installed
  }

  /** The cached name refers to a build that is no longer installed. */
  predicate Stale(active: map<GameType, string>, installed: map<GameType, Installs>, t: GameType) {
    Cached(active, installed, t) && active[t] !in installed[t].values
  }

  /** What `get_active_installation(t)` returns. */
  function ActiveLookup(active: map<GameType, string>, installed: map<GameType, Installs>, t: GameType)
    : (r: Option<GameInstallation>)
    ensures r.Some? <==> Cached(active, installed, t) && active[t] in installed[t].values
    ensures r.Some? ==> r.value == installed[t].values[active[t]]
    ensures Stale(active, installed, t) || t !in installed ==> r == None
  {
    if Cached(active, installed, t) && active[t] in installed[t].values then Some(installed[t].values[active[t]])
    else None
  }

  /** The cache after `get_active_installation(t)`: a stale entry is evicted. */
  function AfterLookup(active: map<GameType, string>, installed: map<GameType, Installs>, t: GameType)
    : (r: map<GameType, string>)
    ensures Stale(active, installed, t) ==> r == active - {t}
    ensures !Stale(active, installed, t) ==> r == active
  {
    if Stale(active, installed, t) then active - {t} else active
  }

  /** After a lookup nothing is stale for that type any more, and a second lookup changes nothing. */
  lemma LookupEvictsOnce(active: map<GameType, string>, installed: map<GameType, Installs>, t: GameType)
    ensures !Stale(AfterLookup(active, installed, t), installed, t)
    ensures ActiveLookup(AfterLookup(active, installed, t), installed, t) == ActiveLookup(active, installed, t)
    ensures AfterLookup(AfterLookup(active, installed, t), installed, t) == AfterLookup(active, installed, t)
  {
  }

  // ---- the cache in the settings store ----

  /** The settings key of a game type's active build. */
  function Key(t: GameType): (k: string)
    ensures |k| == 15 + |t.name| && k[15..] == t.name
  {
    "active_install_" + t.name
  }

  lemma KeyInjective(a: GameType, b: GameType)
    requires Key(a) == Key(b)
    ensures a.name == b.name
  {
    assert Key(a)[15..] == a.name && Key(b)[15..] == b.name;
  }

  /** A setting value that names a build: a non-empty string. Every other value is skipped, including truthy non-strings. */
  function NameSetting(v: Json): (r: Option<string>)
    ensures r.Some? <==> v.JString? && v.s != ""
    ensures r.Some? ==> r.value == v.s
  {
    if v.JString? && v.s != "" then Some(v.s) else None
  }

  /** The build name a settings layer caches for `t`, if any. */
  function SettingName(loaded: bool, user: map<string, Json>, defaults: map<string, Json>, t: GameType)
    : (r: Option<string>)
    ensures r == NameSetting(ReadLayer(loaded, user, defaults, Key(t), JString("")))
  {
    NameSetting(ReadLayer(loaded, user, defaults, Key(t), JString("")))
  }

  /** The cache `_initialize_active_installations_from_settings` reads for the types `types`, in order. */
  function InitialActive(types: seq<GameType>, loaded: bool, user: map<string, Json>, defaults: map<string, Json>)
    : (r: map<GameType, string>)
    ensures forall t :: t in r <==> t in types && SettingName(loaded, user, defaults, t).Some?
    ensures forall t :: t in r ==> r[t] == SettingName(loaded, user, defaults, t).value
    decreases |types|
  {
    if types == [] then map[]
    else
      var t := types[|types| - 1];
      assert types == types[..|types| - 1] + [t];
      var rest := InitialActive(types[..|types| - 1], loaded, user, defaults);
      var n := SettingName(loaded, user, defaults, t);
      if n.Some? then rest[t := n.value] else rest
  }

  /** One more type read extends the cache by that type's entry, if it has one. */
  lemma InitialActiveStep(types: seq<GameType>, i: nat, loaded: bool, user: map<string, Json>, defaults: map<string, Json>)
    requires i < |types|
    ensures var rest := InitialActive(types[..i], loaded, user, defaults);
      var n := SettingName(loaded, user, defaults, types[i]);
      InitialActive(types[..i + 1], loaded, user, defaults) == if n.Some? then rest[types[i] := n.value] else rest
  {
    assert types[..i + 1][..i] == types[..i];
  }

  /** The name the cache holds for `t`, or "" when there is none. */
  function ActiveName(active: map<GameType, string>, t: GameType): (n: string)
    ensures t in active ==> n == active[t]
    ensures t !in active ==> n == ""
  {
    if t in active then active[t] else ""
  }

  /** The entries `_persist_active_installations_to_settings` writes: the cached name or "" for each type. */
  function PersistMap(types: seq<GameType>, active: map<GameType, string>): (r: map<string, Json>)
    requires NamesDistinct(types)
    ensures forall t :: t in types ==> Key(t) in r && r[Key(t)] == JString(ActiveName(active, t))
    ensures forall k :: k in r ==> exists t :: t in types && k == Key(t)
    decreases |types|
  {
    if types == [] then map[]
    else
      var t := types[|types| - 1];
      var prefix := types[..|types| - 1];
      LastKeyFresh(types);
      PersistMap(prefix, active)[Key(t) := JString(ActiveName(active, t))]
  }

  /** The last of several uniquely named types has a key none of the others has. */
  lemma LastKeyFresh(types: seq<GameType>)
    requires NamesDistinct(types) && types != []
    ensures var prefix := types[..|types| - 1];
      && NamesDistinct(prefix)
      && (forall u :: u in types <==> u in prefix || u == types[|types| - 1])
      && forall u :: u in prefix ==> Key(u) != Key(types[|types| - 1])
  {
    var t := types[|types| - 1];
    var prefix := types[..|types| - 1];
    assert types == prefix + [t];
    forall u | u in prefix ensures Key(u) != Key(t) {
      var i :| 0 <= i < |prefix| && prefix[i] == u;
      assert types[i].name != types[|types| - 1].name;
      if Key(u) == Key(t) {
        KeyInjective(u, t);
      }
    }
  }

  /** Persisting one more type adds that type's key. */
  lemma PersistMapStep(types: seq<GameType>, i: nat, active: map<GameType, string>)
    requires NamesDistinct(types) && i < |types|
    ensures NamesDistinct(types[..i]) && NamesDistinct(types[..i + 1])
    ensures PersistMap(types[..i + 1], active) == PersistMap(types[..i], active)[Key(types[i]) := JString(ActiveName(active, types[i]))]
  {
    assert types[..i + 1][..i] == types[..i];
  }

  /** The non-empty cached names of the types `types`: what survives a persist-and-reload. */
  function Restrict(types: seq<GameType>, active: map<GameType, string>): (r: map<GameType, string>)
    ensures forall t :: t in r <==> t in types && t in active && active[t] != ""
    ensures forall t :: t in r ==> r[t] == active[t]
  {
    map t | t in types && t in active && active[t] != "" :: active[t]
  }

  /** Persisting and re-initialising restores exactly the non-empty cached names. */
  lemma PersistRoundTrip(types: seq<GameType>, active: map<GameType, string>,
                         user: map<string, Json>, defaults: map<string, Json>)
    requires NamesDistinct(types)
    ensures InitialActive(types, true, user + PersistMap(types, active), defaults) == Restrict(types, active)
  {
    var p := PersistMap(types, active);
    var after := user + p;
    var l := InitialActive(types, true, after, defaults);
    var r := Restrict(types, active);
    forall t | t in types
      ensures SettingName(true, after, defaults, t) == NameSetting(JString(ActiveName(active, t)))
    {
      assert Key(t) in p && after[Key(t)] == p[Key(t)];
    }
    forall t ensures t in l <==> t in r {
    }
    forall t | t in l ensures l[t] == r[t] {
    }
    assert l == r;
  }

  // ---- removal results ----

  datatype RemovalResult = RemovalResult(
    success: bool, wasActive: bool, newActive: Option<string>, errorMessage: Option<string>)

  function RemovalFailure(message: string): (r: RemovalResult)
    ensures !r.success && !r.wasActive && r.newActive == None && r.errorMessage == Some(message)
  {
    RemovalResult(false, false, None, Some(message))
  }

  /**
   * Python's `==` between the installation `get_active_installation` returns
   * (or `None`) and a name: `GameInstallation` defines no `__eq__`, so
   * objects of different types never compare equal.
   */
  function InstallationEqualsName(active: Option<GameInstallation>, name: string): (r: bool)
    ensures !r
  {
    false
  }

  class InstallationManager {
    const registry: Registry
    const settings: SettingsManager
    /** `paths.games_dir`. */
    const gamesDir: Path
    var installedGames: map<GameType, Installs>
    var pending: map<string, InstallationContext>
    var currentGameType: GameType
    var activeInstallations: map<GameType, string>
    ghost var events: seq<Event>

    ghost predicate Valid()
      reads this, registry
    {
      registry.Valid() && InstalledValid(installedGames)
    }

    /**
     * `__init__`: the current game type and the active cache are read from
     * the settings store, and `onDisk` is what `_load_installed_games` finds.
     */
    constructor (registry: Registry, settings: SettingsManager, gamesDir: Path, onDisk: map<GameType, Installs>)
      requires registry.Valid() && InstalledValid(onDisk)
      ensures Valid()
      ensures this.registry == registry && this.settings == settings && this.gamesDir == gamesDir
      ensures installedGames == onDisk && pending == map[] && events == []
      ensures currentGameType == GameTypeSetting(registry.all, settings.Read("game", JString(registry.all[0].name)))
      ensures activeInstallations
           == InitialActive(registry.all, settings.isLoaded, settings.currentUser, settings.userDefaults)
    {
      this.registry := registry;
      this.settings := settings;
      this.gamesDir := gamesDir;
      installedGames := map[];
      pending := map[];
      currentGameType := registry.all[0];
      activeInstallations := map[];
      events := [];
      new;
      InitializeGameTypeFromSettings();
      InitializeActiveInstallationsFromSettings();
      installedGames := onDisk;
    }

    /** `_initialize_game_type_from_settings`. */
    method InitializeGameTypeFromSettings()
      requires registry.Valid()
      modifies this`currentGameType
      ensures currentGameType == GameTypeSetting(registry.all, settings.Read("game", JString(registry.all[0].name)))
      ensures installedGames == old(installedGames) && activeInstallations == old(activeInstallations)
      ensures pending == old(pending) && events == old(events)
    {
      var v := settings.Read("game", JString(registry.all[0].name));
      currentGameType := GameTypeSetting(registry.all, v);
    }

    /** `_initialize_active_installations_from_settings`: adds the named builds read for every registered type. */
    method InitializeActiveInstallationsFromSettings()
      modifies this`activeInstallations
      ensures activeInstallations
           == old(activeInstallations) + InitialActive(registry.all, settings.isLoaded, settings.currentUser, settings.userDefaults)
      ensures installedGames == old(installedGames) && currentGameType == old(currentGameType)
      ensures pending == old(pending) && events == old(events)
    {
      var types, loaded, user, defaults := registry.all, settings.isLoaded, settings.currentUser, settings.userDefaults;
      ghost var start := activeInstallations;
      for i := 0 to |types|
        invariant activeInstallations == start + InitialActive(types[..i], loaded, user, defaults)
        modifies this`activeInstallations
      {
        var t := types[i];
        var v := settings.Read(Key(t), JString(""));
        InitialActiveStep(types, i, loaded, user, defaults);
        if NameSetting(v).Some? {
          UnionUpdate(start, InitialActive(types[..i], loaded, user, defaults), t, v.s);
          activeInstallations := activeInstallations[t := v.s];
        }
      }
      assert types[..|types|] == types;
    }

    /** `_persist_active_installations_to_settings`: one `store` per registered type. */
    method PersistActiveInstallationsToSettings()
      requires registry.Valid()
      modifies settings
      ensures settings.isLoaded == old(settings.isLoaded) && settings.currentCore == old(settings.currentCore)
      ensures settings.isLoaded ==>
                settings.currentUser == old(settings.currentUser) + PersistMap(registry.all, activeInstallations)
      ensures !settings.isLoaded ==> settings.currentUser == old(settings.currentUser)
    {
      var types, active := registry.all, activeInstallations;
      ghost var start := settings.currentUser;
      assert NamesDistinct(types[..0]);
      for i := 0 to |types|
        invariant settings.isLoaded == old(settings.isLoaded) && settings.currentCore == old(settings.currentCore)
        invariant NamesDistinct(types[..i])
        invariant settings.isLoaded ==> settings.currentUser == start + PersistMap(types[..i], active)
        invariant !settings.isLoaded ==> settings.currentUser == start
      {
        var t := types[i];
        var value := JString(ActiveName(active, t));
        PersistMapStep(types, i, active);
        UnionUpdate(start, PersistMap(types[..i], active), Key(t), value);
        var _ := settings.Store(Key(t), value);
      }
      assert types[..|types|] == types;
    }

    /** `set_current_game_type`: no change when equal; otherwise the new type is stored and one event sent. */
    method SetCurrentGameType(t: GameType) returns (ok: bool)
      modifies this, settings
      ensures ok
      ensures currentGameType == t
      ensures t == old(currentGameType) ==> events == old(events) && settings.currentUser == old(settings.currentUser)
      ensures t != old(currentGameType) ==> events == old(events) + [CurrentGameTypeChanged(old(currentGameType), t)]
      ensures t != old(currentGameType) ==>
        settings.currentUser == if old(settings.isLoaded) then old(settings.currentUser)["game" := JString(t.name)]
                                else old(settings.currentUser)
      ensures installedGames == old(installedGames) && activeInstallations == old(activeInstallations)
      ensures pending == old(pending)
      ensures settings.isLoaded == old(settings.isLoaded) && settings.currentCore == old(settings.currentCore)
    {
      if t == currentGameType {
        return true;
      }
      var oldType := currentGameType;
      currentGameType := t;
      var _ := settings.Store("game", JString(t.name));
      events := events + [CurrentGameTypeChanged(oldType, t)];
      return true;
    }

    /**
     * `set_current_game_type` as written against the `Events` class shown,
     * which defines no `CURRENT_GAME_TYPE_CHANGED`: the attribute lookup
     * raises after the type and the setting have already changed, the
     * handler returns False and no event is sent.
     */
    method SetCurrentGameTypeAsWritten(t: GameType) returns (ok: bool)
      modifies this, settings
      ensures ok <==> t == old(currentGameType)
      ensures currentGameType == t && events == old(events)
      ensures settings.currentUser == (if t != old(currentGameType) && old(settings.isLoaded)
                                       then old(settings.currentUser)["game" := JString(t.name)]
                                       else old(settings.currentUser))
      ensures installedGames == old(installedGames) && activeInstallations == old(activeInstallations)
      ensures pending == old(pending)
      ensures settings.isLoaded == old(settings.isLoaded) && settings.currentCore == old(settings.currentCore)
    {
      if t == currentGameType {
        return true;
      }
      currentGameType := t;
      var _ := settings.Store("game", JString(t.name));
      // `Events.CURRENT_GAME_TYPE_CHANGED` raises AttributeError, caught by the method's handler
      return false;
    }

    /** The game type an optional argument stands for: `None` is the current type. */
    function Resolve(gameType: Option<GameType>): (t: GameType)
      reads this
      ensures gameType.Some? ==> t == gameType.value
      ensures gameType.None? ==> t == currentGameType
    {
      if gameType.Some? then gameType.value else currentGameType
    }

    /**
     * `get_active_installation`: the installed build the cache names; a stale
     * name is evicted. (As written the eviction goes through
     * `clear_active_installation`, which calls back into this method; see
     * `GetActiveAsWritten`. This is the outcome the code is after.)
     */
    method GetActiveInstallation(gameType: Option<GameType>) returns (r: Option<GameInstallation>)
      modifies this
      ensures r == ActiveLookup(old(activeInstallations), installedGames, old(Resolve(gameType)))
      ensures activeInstallations == AfterLookup(old(activeInstallations), installedGames, old(Resolve(gameType)))
      ensures installedGames == old(installedGames) && currentGameType == old(currentGameType)
      ensures pending == old(pending) && events == old(events)
    {
      var t := Resolve(gameType);
      if t in activeInstallations && activeInstallations[t] != "" && t in installedGames {
        var name := activeInstallations[t];
        if name in installedGames[t].values {
          return Some(installedGames[t].values[name]);
        }
        activeInstallations := activeInstallations - {t};
      }
      return None;
    }

    /** `set_active_installation`: refuses a build not registered under the type; otherwise caches its name. */
    method SetActiveInstallation(installation: GameInstallation, gameType: Option<GameType>) returns (ok: bool)
      modifies this
      ensures var t := if gameType.Some? then gameType.value else installation.gameType;
        && (ok <==> t in installedGames && installation.name in installedGames[t].values)
        && (!ok ==> activeInstallations == old(activeInstallations) && events == old(events))
        && (ok ==> (activeInstallations == old(activeInstallations)[t := installation.name]
                    && events == old(events) + [ActiveInstallationChanged(t,
                         ActiveLookup(old(activeInstallations), installedGames, t), Some(installation), "user_selection")]))
      ensures installedGames == old(installedGames) && currentGameType == old(currentGameType)
      ensures pending == old(pending)
    {
      var t := if gameType.Some? then gameType.value else installation.gameType;
      if t !in installedGames || installation.name !in installedGames[t].values {
        return false;
      }
      var oldActive := GetActiveInstallation(Some(t));
      activeInstallations := activeInstallations[t := installation.name];
      events := events + [ActiveInstallationChanged(t, oldActive, Some(installation), "user_selection")];
      return true;
    }

    /** `set_active_installation_by_name`: the same, with the build looked up by name under the type. */
    method SetActiveInstallationByName(name: string, gameType: Option<GameType>) returns (ok: bool)
      requires InstalledValid(installedGames)
      modifies this
      ensures var t := old(Resolve(gameType));
        && (ok <==> t in installedGames && name in installedGames[t].values)
        && (!ok ==> activeInstallations == old(activeInstallations) && events == old(events))
        && (ok ==> (activeInstallations == old(activeInstallations)[t := name]
                    && events == old(events) + [ActiveInstallationChanged(t,
                         ActiveLookup(old(activeInstallations), installedGames, t),
                         Some(installedGames[t].values[name]), "user_selection")]))
      ensures installedGames == old(installedGames) && currentGameType == old(currentGameType)
      ensures pending == old(pending)
    {
      var t := Resolve(gameType);
      if t !in installedGames || name !in installedGames[t].values {
        return false;
      }
      ok := SetActiveInstallation(installedGames[t].values[name], Some(t));
    }

    /** `clear_active_installation`: drops the type's entry; the event is sent only if a build was active. */
    method ClearActiveInstallation(gameType: Option<GameType>) returns (ok: bool)
      modifies this
      ensures ok
      ensures var t := old(Resolve(gameType));
        var before := ActiveLookup(old(activeInstallations), installedGames, t);
        && activeInstallations == old(activeInstallations) - {t}
        && events == old(events) + (if before.Some? then [ActiveInstallationChanged(t, before, None, "cleared")] else [])
      ensures installedGames == old(installedGames) && currentGameType == old(currentGameType)
      ensures pending == old(pending)
    {
      var t := Resolve(gameType);
      var oldActive := GetActiveInstallation(Some(t));
      if t in activeInstallations {
        activeInstallations := activeInstallations - {t};
      }
      if oldActive.Some? {
        events := events + [ActiveInstallationChanged(t, oldActive, None, "cleared")];
      }
      return true;
    }

    /**
     * `auto_set_active_installation`: with nothing installed the entry is
     * cleared; otherwise an installed `prefer_name` wins, else the first build
     * in insertion order.
     */
    method AutoSetActiveInstallation(gameType: Option<GameType>, preferName: Option<string>) returns (r: Option<string>)
      requires InstalledValid(installedGames)
      modifies this
      ensures var t := old(Resolve(gameType));
        && ((t !in installedGames || installedGames[t].keys == []) ==>
              r == None && activeInstallations == old(activeInstallations) - {t})
        && ((t in installedGames && installedGames[t].keys != []) ==>
              r.Some? && r.value in installedGames[t].values
              && activeInstallations == old(activeInstallations)[t := r.value]
              && r.value == (if preferName.Some? && preferName.value != "" && preferName.value in installedGames[t].values
                             then preferName.value else installedGames[t].keys[0]))
      ensures var t := old(Resolve(gameType));
        && ((t !in installedGames || installedGames[t].keys == []) ==> events == old(events))
        && ((t in installedGames && installedGames[t].keys != []) ==>
              events == old(events) + [ActiveInstallationChanged(t, ActiveLookup(old(activeInstallations), installedGames, t),
                                                                 Some(installedGames[t].values[r.value]), "user_selection")])
      ensures installedGames == old(installedGames) && currentGameType == old(currentGameType)
      ensures pending == old(pending)
    {
      var t := Resolve(gameType);
      if t !in installedGames || installedGames[t].keys == [] {
        var _ := ClearActiveInstallation(Some(t));
        return None;
      }
      var installs := installedGames[t];
      if preferName.Some? && preferName.value != "" && preferName.value in installs.values {
        var ok := SetActiveInstallation(installs.values[preferName.value], Some(t));
        if ok {
          return preferName;
        }
      }
      var first := installs.keys[0];
      assert first in installs.values;
      var ok := SetActiveInstallation(installs.values[first], Some(t));
      if ok {
        return Some(first);
      }
      return None;
    }

    /**
     * `_determine_installation_directory`: with `updateExisting` and an
     * active build, that build's path; otherwise `games/<type>/gameN` for the
     * smallest absent N. `existing` is the set of existing paths and
     * `mkdirOk` whether `games/<type>` can be created.
     */
    method DetermineInstallationDirectory(t: GameType, updateExisting: bool, existing: set<Path>, mkdirOk: bool)
      returns (r: Result<string>)
      modifies this
      ensures var active := ActiveLookup(old(activeInstallations), installedGames, t);
        && (updateExisting && active.Some? ==> r == Ok(active.value.installPath))
        && (!(updateExisting && active.Some?) && !mkdirOk ==> r == Err("InstallationError"))
        && (!(updateExisting && active.Some?) && mkdirOk ==>
              exists n: nat :: r == Ok(Render(Slot(Join(gamesDir, t.name), n)))
                && Slot(Join(gamesDir, t.name), n) !in existing
                && forall m: nat :: m < n ==> Slot(Join(gamesDir, t.name), m) in existing)
      ensures activeInstallations == (if updateExisting then AfterLookup(old(activeInstallations), installedGames, t)
                                      else old(activeInstallations))
      ensures installedGames == old(installedGames) && currentGameType == old(currentGameType)
      ensures pending == old(pending) && events == old(events)
    {
      if updateExisting {
        var active := GetActiveInstallation(Some(t));
        if active.Some? {
          return Ok(active.value.installPath);
        }
      }
      if !mkdirOk {
        return Err("InstallationError");
      }
      var n := FirstFreeSlot(Join(gamesDir, t.name), existing);
      return Ok(Render(Slot(Join(gamesDir, t.name), n)));
    }

    /**
     * `_create_installation_metadata`: builds the record from the context and
     * adds it under the release's type. Saving the file cannot fail the call:
     * `save_json_file` reports a failed write by a result `save` ignores.
     */
    method CreateInstallationMetadata(context: InstallationContext, now: string) returns (r: Result<GameInstallation>)
      requires InstalledValid(installedGames)
      modifies this
      ensures InstalledValid(installedGames)
      ensures r == Ok(MetadataFor(context, now))
      ensures var t := context.release.gameType;
        installedGames == old(installedGames)[t := Put(if t in old(installedGames) then old(installedGames)[t] else Empty(),
                                                      r.value.name, r.value)]
      ensures activeInstallations == old(activeInstallations) && currentGameType == old(currentGameType)
      ensures pending == old(pending) && events == old(events)
    {
      var meta := MetadataFor(context, now);
      var t := context.release.gameType;
      var installs := if t in installedGames then installedGames[t] else Empty();
      installedGames := installedGames[t := Put(installs, meta.name, meta)];
      return Ok(meta);
    }

    /** `_update_installation_status`: only a pending id is touched. */
    method UpdateInstallationStatus(contextId: string, status: InstallationStatus)
      modifies (if contextId in pending then {pending[contextId]} else {})`status
      ensures contextId in pending ==> pending[contextId].status == status
    {
      if contextId in pending {
        pending[contextId].status := status;
      }
    }

    /** `cancel_installation`: True iff the id is pending, which is then marked cancelled. */
    method CancelInstallation(contextId: string) returns (ok: bool)
      modifies (if contextId in pending then {pending[contextId]} else {})`status
      ensures ok <==> contextId in pending
      ensures ok ==> pending[contextId].status == Cancelled
    {
      if contextId in pending {
        UpdateInstallationStatus(contextId, Cancelled);
        return true;
      }
      return false;
    }

    /**
     * `remove_installation` as written: `existingPaths` are the paths that
     * exist, `rmtreeOk` whether deleting succeeds, and `reloaded` what the
     * reload finds afterwards. `was_active` compares the installation object
     * with a name and so is always False, and auto-selection never runs.
     */
    method RemoveInstallation(t: GameType, name: string, existingPaths: set<string>, rmtreeOk: bool,
                              reloaded: map<GameType, Installs>) returns (r: RemovalResult)
      modifies this
      ensures !r.wasActive && r.newActive == None
      ensures (t !in old(installedGames) || name !in old(installedGames)[t].values) ==>
                r == RemovalFailure("Failed to remove installation: KeyError") && installedGames == old(installedGames)
                && activeInstallations == old(activeInstallations)
      ensures t in old(installedGames) && name in old(installedGames)[t].values ==>
                var path := old(installedGames)[t].values[name].installPath;
                && (path !in existingPaths ==>
                      r == RemovalFailure("Installation path not found: " + path)
                      && installedGames == old(installedGames) && activeInstallations == old(activeInstallations))
                && (path in existingPaths ==>
                      activeInstallations == AfterLookup(old(activeInstallations), old(installedGames), t)
                      && (!rmtreeOk ==> r == RemovalFailure("Failed to remove installation: OSError")
                                        && installedGames == old(installedGames))
                      && (rmtreeOk ==> r == RemovalResult(true, false, None, None) && installedGames == reloaded))
      ensures currentGameType == old(currentGameType) && pending == old(pending) && events == old(events)
    {
      if t !in installedGames || name !in installedGames[t].values {
        return RemovalFailure("Failed to remove installation: KeyError");
      }
      var path := installedGames[t].values[name].installPath;
      if path !in existingPaths {
        return RemovalFailure("Installation path not found: " + path);
      }
      var active := GetActiveInstallation(Some(t));
      var wasActive := InstallationEqualsName(active, name);
      if !rmtreeOk {
        return RemovalFailure("Failed to remove installation: OSError");
      }
      installedGames := reloaded;
      // `was_active` is always false, so auto-selection never runs
      assert !wasActive;
      return RemovalResult(true, wasActive, None, None);
    }

    /**
     * `remove_installation` as evidently intended: `was_active` compares the
     * active build's name, and removing the active build auto-selects another.
     */
    method RemoveInstallationIntended(t: GameType, name: string, existingPaths: set<string>, rmtreeOk: bool,
                                      reloaded: map<GameType, Installs>) returns (r: RemovalResult)
      requires InstalledValid(reloaded)
      modifies this
      ensures (t !in old(installedGames) || name !in old(installedGames)[t].values) ==>
                r == RemovalFailure("Failed to remove installation: KeyError") && installedGames == old(installedGames)
                && activeInstallations == old(activeInstallations) && events == old(events)
      ensures t in old(installedGames) && name in old(installedGames)[t].values ==>
                var path := old(installedGames)[t].values[name].installPath;
                && (path !in existingPaths ==>
                      r == RemovalFailure("Installation path not found: " + path) && installedGames == old(installedGames)
                      && activeInstallations == old(activeInstallations) && events == old(events))
                && (path in existingPaths && !rmtreeOk ==>
                      r == RemovalFailure("Failed to remove installation: OSError") && installedGames == old(installedGames)
                      && activeInstallations == AfterLookup(old(activeInstallations), old(installedGames), t)
                      && events == old(events))
                && (path in existingPaths && rmtreeOk && !r.wasActive ==>
                      activeInstallations == AfterLookup(old(activeInstallations), old(installedGames), t)
                      && events == old(events))
      ensures InstalledValid(old(installedGames)) && t in old(installedGames) && name in old(installedGames)[t].values
              && old(installedGames)[t].values[name].installPath in existingPaths && rmtreeOk ==>
                r.success && installedGames == reloaded
                && (r.wasActive <==> ActiveLookup(old(activeInstallations), old(installedGames), t).Some?
                                     && old(activeInstallations)[t] == name)
                && (r.wasActive && t in reloaded && reloaded[t].keys != [] ==>
                      r.newActive == Some(reloaded[t].keys[0])
                      && activeInstallations == old(activeInstallations)[t := reloaded[t].keys[0]])
                && (r.wasActive && (t !in reloaded || reloaded[t].keys == []) ==>
                      r.newActive == None && activeInstallations == old(activeInstallations) - {t})
                && (!r.wasActive ==> r.newActive == None)
                && (r.wasActive && (t !in reloaded || reloaded[t].keys == []) ==> events == old(events))
                && (r.wasActive && t in reloaded && reloaded[t].keys != [] && name !in reloaded[t].values ==>
                      events == old(events) + [ActiveInstallationChanged(t, None, Some(reloaded[t].values[reloaded[t].keys[0]]),
                                                                         "user_selection")])
                && (r.wasActive && t in reloaded && reloaded[t].keys != [] && name in reloaded[t].values ==>
                      events == old(events) + [ActiveInstallationChanged(t, Some(reloaded[t].values[name]),
                                                                         Some(reloaded[t].values[reloaded[t].keys[0]]),
                                                                         "user_selection")])
      ensures currentGameType == old(currentGameType) && pending == old(pending)
    {
      if t !in installedGames || name !in installedGames[t].values {
        return RemovalFailure("Failed to remove installation: KeyError");
      }
      var path := installedGames[t].values[name].installPath;
      if path !in existingPaths {
        return RemovalFailure("Installation path not found: " + path);
      }
      var active := GetActiveInstallation(Some(t));
      var wasActive := active.Some? && active.value.name == name;
      if !rmtreeOk {
        return RemovalFailure("Failed to remove installation: OSError");
      }
      installedGames := reloaded;
      var newActive: Option<string> := None;
      if wasActive {
        newActive := AutoSetActiveInstallation(Some(t), None);
      }
      return RemovalResult(true, wasActive, newActive, None);
    }

    /** `shutdown`: persists the cache, cancels every pending flow and empties the table. */
    method Shutdown()
      requires registry.Valid()
      modifies this`pending, settings, pending.Values`status
      ensures pending == map[]
      ensures forall id :: id in old(pending) ==> old(pending)[id].status == Cancelled
      ensures settings.isLoaded == old(settings.isLoaded) && settings.currentCore == old(settings.currentCore)
      ensures settings.isLoaded ==>
                settings.currentUser == old(settings.currentUser) + PersistMap(registry.all, activeInstallations)
      ensures !settings.isLoaded ==> settings.currentUser == old(settings.currentUser)
      ensures activeInstallations == old(activeInstallations) && installedGames == old(installedGames)
      ensures currentGameType == old(currentGameType) && events == old(events)
    {
      PersistActiveInstallationsToSettings();
      CancelAll();
      pending := map[];
    }

    /** The loop of `shutdown` that cancels every pending flow. */
    method CancelAll()
      modifies pending.Values`status
      ensures forall id :: id in pending ==> pending[id].status == Cancelled
    {
      var ids := pending.Keys;
      while ids != {}
        invariant ids <= pending.Keys
        invariant forall id :: id in pending && id !in ids ==> pending[id].status == Cancelled

        decreases |ids|
      {
        var id :| id in ids;
        var _ := CancelInstallation(id);
        ids := ids - {id};
      }
    }
  }

  /** The game type a `game` setting selects: a string is looked up by name, anything else matches nothing. */
  function GameTypeSetting(types: seq<GameType>, v: Json): (g: GameType)
    ensures v.JString? ==> g == ByName(types, v.s)
    ensures !v.JString? ==> g == Other()
  {
    if v.JString? then ByName(types, v.s) else Other()
  }

  /** The record `_create_installation_metadata` builds from an installation context. */
  function MetadataFor(context: InstallationContext, now: string): (g: GameInstallation)
    reads context
    ensures g.name == context.release.name && g.version == context.release.tagName
    ensures g.gameType == context.release.gameType && g.channel == context.release.channel
    ensures g.assetSize == context.asset.size && g.installationSize == context.asset.size
    ensures g.installPath == context.installPath && g.installDate == now
  {
    NewInstallation(context.release.name, context.release.tagName, context.release.gameType,
      context.release.channel, context.asset.name, context.asset.size, context.asset.downloadUrl,
      context.release.id, context.release.publishedAt, context.release.body, context.asset.size,
      context.installPath, now)
  }

  /** The smallest N for which `dir/gameN` does not exist; there is one, since `existing` is finite. */
  method FirstFreeSlot(dir: Path, existing: set<Path>) returns (n: nat)
    ensures Slot(dir, n) !in existing
    ensures forall m: nat :: m < n ==> Slot(dir, m) in existing
  {
    n := 0;
    ghost var seen: set<Path> := {};
    while Slot(dir, n) in existing
      invariant seen == set m: nat | m < n :: Slot(dir, m)
      invariant |seen| == n && seen <= existing
      decreases |existing| - n
    {
      var slot := Slot(dir, n);
      assert slot !in seen by {
        if slot in seen {
          var m: nat :| m < n && Slot(dir, m) == slot;
          SlotInjective(dir, m, n);
        }
      }
      assert seen + {slot} == set m: nat | m < n + 1 :: Slot(dir, m);
      seen := seen + {slot};
      CardinalitySubset(seen, existing);
      n := n + 1;
    }
  }

  lemma UnionUpdate<K, V>(a: map<K, V>, b: map<K, V>, k: K, v: V)
    ensures (a + b)[k := v] == a + b[k := v]
  {
  }

  lemma CardinalitySubset<T>(a: set<T>, b: set<T>)
    requires a <= b
    ensures |a| <= |b|
  {
    assert b == a + (b - a);
  }

  // ---- the lookup as written: `get_active_installation` and `clear_active_installation` call each other ----

  datatype Snapshot = Snapshot(active: map<GameType, string>, events: seq<Event>)

  /**
   * `get_active_installation(t)` as written, with `depth` calls left before
   * Python's recursion limit (`None` means the limit was hit).
   */
  function GetActiveAsWritten(depth: nat, installed: map<GameType, Installs>, s: Snapshot, t: GameType)
    : (r: Option<(Option<GameInstallation>, Snapshot)>)
    ensures r.Some? && r.value.0.Some? ==> r.value.1 == s && Cached(s.active, installed, t)
    ensures r.Some? && !Cached(s.active, installed, t) ==> r.value == (None, s)
    decreases depth
  {
    if depth == 0 then None
    else if Cached(s.active, installed, t) then
      if s.active[t] in installed[t].values then Some((Some(installed[t].values[s.active[t]]), s))
      else
        match ClearAsWritten(depth - 1, installed, s, t)
        case None => None
        case Some(s2) => Some((None, s2))
    else Some((None, s))
  }

  /** `clear_active_installation(t)` as written: it looks the active build up first. */
  function ClearAsWritten(depth: nat, installed: map<GameType, Installs>, s: Snapshot, t: GameType): (r: Option<Snapshot>)
    ensures r.Some? ==> t !in r.value.active
    decreases depth
  {
    if depth == 0 then None
    else
      match GetActiveAsWritten(depth - 1, installed, s, t)
      case None => None
      case Some((oldActive, s1)) =>
        Some(Snapshot(s1.active - {t},
          s1.events + (if oldActive.Some? then [ActiveInstallationChanged(t, oldActive, None, "cleared")] else [])))
  }

  /** With a stale cached name the two calls recurse forever: no call depth is enough to return. */
  lemma {:induction false} StaleLookupNeverReturns(depth: nat, installed: map<GameType, Installs>, s: Snapshot, t: GameType)
    requires Stale(s.active, installed, t)
    ensures GetActiveAsWritten(depth, installed, s, t) == None
    decreases depth
  {
    if depth >= 2 {
      StaleLookupNeverReturns(depth - 2, installed, s, t);
    }
  }

  /** Without a stale name, the lookup as written returns at once with the corrected lookup's answer. */
  lemma LookupAgreesWhenNotStale(installed: map<GameType, Installs>, s: Snapshot, t: GameType)
    requires !Stale(s.active, installed, t)
    ensures GetActiveAsWritten(1, installed, s, t) == Some((ActiveLookup(s.active, installed, t), s))
  {
  }
}
