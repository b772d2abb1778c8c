/**
 * The game-type registry: the frozen `GameType` record, the class-level list
 * `GameType.all` that always ends with `GameType.other`, the lookups by name
 * and by display name that fall back to `other`, duplicate-rejecting
 * insertion, and the dictionary form used in the core settings file.
 */
module GameTypes {
  import opened Wrappers
  import opened Json

  datatype GameType = GameType(
    name: string,
    displayName: string,
    repository: Option<string>,
    executableName: Option<map<string, string>>)

  /** `GameType.other`, the fallback every lookup returns when nothing matches. */
  function Other(): (g: GameType)
    ensures g.name == "other" && g.displayName == "Other" && g.repository == None
  {
    GameType("other", "Other", None,
      Some(map["windows" := "cataclysm-tiles.exe", "linux" := "cataclysm-launcher"]))
  }

  // ---- lookups (linear searches with an early return) ----

  /** `get_game_type_by_name`: the first entry with that name, else `other`. */
  function ByName(types: seq<GameType>, name: string): (r: GameType)
    ensures (forall i :: 0 <= i < |types| ==> types[i].name != name) ==> r == Other()
    ensures forall i ::
              (0 <= i < |types| && types[i].name == name && forall j :: 0 <= j < i ==> types[j].name != name)
              ==> r == types[i]
  {
    if types == [] then Other()
    else if types[0].name == name then types[0]
    else
      var r := ByName(types[1..], name);
      assert forall i :: 1 <= i < |types| ==> types[1..][i - 1] == types[i];
      r
  }

  /** `get_game_type_by_display_name`: the first entry with that display name, else `other`. */
  function ByDisplayName(types: seq<GameType>, displayName: string): (r: GameType)
    ensures (forall i :: 0 <= i < |types| ==> types[i].displayName != displayName) ==> r == Other()
    ensures forall i ::
              (0 <= i < |types| && types[i].displayName == displayName
                && forall j :: 0 <= j < i ==> types[j].displayName != displayName)
              ==> r == types[i]
  {
    if types == [] then Other()
    else if types[0].displayName == displayName then types[0]
    else
      var r := ByDisplayName(types[1..], displayName);
      assert forall i :: 1 <= i < |types| ==> types[1..][i - 1] == types[i];
      r
  }

  /** Python's `list.insert(-1, x)`: just before the last element (at 0 in an empty list). */
  function InsertBeforeLast<T>(s: seq<T>, x: T): (r: seq<T>)
    ensures |r| == |s| + 1
    ensures multiset(r) == multiset(s) + multiset{x}
    ensures s == [] ==> r == [x]
    ensures s != [] ==> r[|r| - 1] == s[|s| - 1] && r[|r| - 2] == x && r[..|s| - 1] == s[..|s| - 1]
  {
    if s == [] then [x]
    else
      assert s == s[..|s| - 1] + [s[|s| - 1]];
      s[..|s| - 1] + [x] + [s[|s| - 1]]
  }

  predicate NameUsed(types: seq<GameType>, name: string) {
    exists i :: 0 <= i < |types| && types[i].name == name
  }

  /** No two registered game types share a name. */
  predicate NamesDistinct(types: seq<GameType>) {
    forall i, j :: 0 <= i < j < |types| ==> types[i].name != types[j].name
  }

  /** The shape `GameType.all` keeps: `other` is last and names are unique. */
  predicate RegistryShape(types: seq<GameType>) {
    |types| > 0 && types[|types| - 1] == Other() && NamesDistinct(types)
  }

  /** The effect of `add_game_type(g)` on the list. */
  function AddType(types: seq<GameType>, g: GameType): (r: seq<GameType>)
    ensures NameUsed(types, g.name) ==> r == types
    ensures !NameUsed(types, g.name) ==> r == InsertBeforeLast(types, g)
  {
    if NameUsed(types, g.name) then types else InsertBeforeLast(types, g)
  }

  /** Adding a type keeps `other` last and the names unique. */
  lemma AddTypeKeepsShape(types: seq<GameType>, g: GameType)
    requires RegistryShape(types)
    ensures RegistryShape(AddType(types, g))
    ensures |AddType(types, g)| == |types| + (if NameUsed(types, g.name) then 0 else 1)
  {
    if !NameUsed(types, g.name) {
      var r := InsertBeforeLast(types, g);
      assert g.name != Other().name by {
        assert types[|types| - 1] == Other();
      }
      forall a, b | 0 <= a < b < |r| ensures r[a].name != r[b].name {
        if b == |r| - 1 {
          if a < |r| - 2 {
            assert r[a] == types[a];
          }
        } else if b == |r| - 2 {
          assert r[a] == types[a];
        } else {
          assert r[a] == types[a] && r[b] == types[b];
        }
      }
    }
  }

  /** `GameType.all` and the class methods that read and extend it. */
  class Registry {
    var all: seq<GameType>

    ghost predicate Valid()
      reads this
    {
      RegistryShape(all)
    }

    /** The module-level `GameType.all = [GameType.other]`. */
    constructor ()
      ensures Valid() && all == [Other()]
    {
      all := [Other()];
    }

    /** `add_game_type`: rejects a used name, otherwise inserts the new type before the last entry. */
    method AddGameType(g: GameType) returns (ok: bool)
      requires Valid()
      modifies this
      ensures Valid()
      ensures ok <==> !NameUsed(old(all), g.name)
      ensures all == AddType(old(all), g)
    {
      var i := 0;
      while i < |all|
        invariant 0 <= i <= |all|
        invariant forall j :: 0 <= j < i ==> all[j].name != g.name
      {
        if all[i].name == g.name {
          return false;
        }
        i := i + 1;
      }
      AddTypeKeepsShape(all, g);
      all := InsertBeforeLast(all, g);
      ok := true;
    }
  }

  /** Adding a type keeps every type already registered. */
  lemma InsertBeforeLastKeeps<T>(s: seq<T>, x: T, y: T)
    requires y in s
    ensures y in InsertBeforeLast(s, x)
  {
    var r := InsertBeforeLast(s, x);
    assert y in multiset(s);
    assert y in multiset(r);
  }

  // ---- dictionary form ----

  function StringsToJson(m: map<string, string>): (r: map<string, Json>)
    ensures r.Keys == m.Keys
    ensures forall k :: k in m ==> r[k] == JString(m[k])
  {
    map k | k in m :: JString(m[k])
  }

  /** `to_dict`: the four fields under their snake-case names; absent values are `None`. */
  function ToDict(g: GameType): (d: map<string, Json>)
    ensures d.Keys == {"name", "display_name", "repository", "executable_name"}
    ensures d["name"] == JString(g.name) && d["display_name"] == JString(g.displayName)
  {
    map[
      "name" := JString(g.name),
      "display_name" := JString(g.displayName),
      "repository" := (match g.repository case None => JNull case Some(s) => JString(s)),
      "executable_name" := (match g.executableName case None => JNull case Some(m) => JObject(StringsToJson(m)))]
  }

  function JsonToStrings(f: map<string, Json>): (r: Option<map<string, string>>)
    ensures r.Some? <==> forall k :: k in f ==> f[k].JString?
    ensures r.Some? ==> r.value.Keys == f.Keys && forall k :: k in f ==> f[k] == JString(r.value[k])
  {
    if forall k :: k in f ==> f[k].JString? then Some(map k | k in f :: f[k].s) else None
  }

  /**
   * `from_dict`: `name` and `display_name` are required (`KeyError` otherwise),
   * `repository` and `executable_name` default to `None`.
   */
  function FromDict(d: map<string, Json>): (r: Result<GameType>)
    ensures "name" !in d || "display_name" !in d ==> r == Err("KeyError")
    ensures r.Ok? ==> JString(r.value.name) == d["name"] && JString(r.value.displayName) == d["display_name"]
  {
    if "name" !in d || "display_name" !in d then Err("KeyError")
    else if !d["name"].JString? || !d["display_name"].JString? then Err("TypeError")
    else
      var repo := Get(d, "repository", JNull);
      var exe := Get(d, "executable_name", JNull);
      if !(repo.JNull? || repo.JString?) then Err("TypeError")
      else if !(exe.JNull? || (exe.JObject? && JsonToStrings(exe.fields).Some?)) then Err("TypeError")
      else
        Ok(GameType(d["name"].s, d["display_name"].s,
          if repo.JNull? then None else Some(repo.s),
          if exe.JNull? then None else JsonToStrings(exe.fields)))
  }

  /** `GameType.from_dict(g.to_dict()) == g`. */
  lemma FromDictToDict(g: GameType)
    ensures FromDict(ToDict(g)) == Ok(g)
  {
    var d := ToDict(g);
    if g.executableName.Some? {
      var m := g.executableName.value;
      var back := JsonToStrings(StringsToJson(m));
      assert back.Some?;
      assert back.value == m;
    }
  }

  /** The components `__hash__` combines: name, display name and repository, not the executables. */
  function HashKey(g: GameType): (string, string, Option<string>) {
    (g.name, g.displayName, g.repository)
  }

  /** Types that differ only in their executables hash alike. */
  lemma HashIgnoresExecutables(g: GameType, exe: Option<map<string, string>>)
    ensures HashKey(g.(executableName := exe)) == HashKey(g)
  {
  }
}
