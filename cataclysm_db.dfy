/**
 * The Cataclysm release database: the local and remote version indexes, the
 * list of games whose remote database is newer, the index update after a
 * download, the count of successful downloads, the re-indexing of a
 * downloaded release list by tag, and the checks `load_game_database` makes
 * on a database file.
 *
 * An index maps a game name to a JSON object holding at least `version`.
 * The remote index keeps the server's key order, which decides the order of
 * the update list.
 */
module CataclysmDb {
  import opened Wrappers
  import opened Json
  import opened OrderedMaps
  import opened GameTypes

  type Entry = map<string, Json>

  /** `info.get('version', 0)`. */
  function Version(info: Entry): (v: Json)
    ensures "version" in info ==> v == info["version"]
    ensures "version" !in info ==> v == JInt(0)
  {
    Get(info, "version", JInt(0))
  }

  /** `local_index.get(name, {}).get('version', 0)`. */
  function LocalVersion(local: map<string, Entry>, name: string): (v: Json)
    ensures name in local ==> v == Version(local[name])
    ensures name !in local ==> v == JInt(0)
  {
    if name in local then Version(local[name]) else JInt(0)
  }

  /**
   * `_determine_updates_needed` over the remote names `names`, in order: a
   * name is listed when its remote version is greater than its local one.
   * A pair Python cannot compare raises `TypeError`.
   */
  function UpdatesNeeded(names: seq<string>, remote: map<string, Entry>, local: map<string, Entry>)
    : (r: Result<seq<string>>)
    requires forall n :: n in names ==> n in remote
    ensures r.Err? ==> r == Err("TypeError")
    decreases |names|
  {
    if names == [] then Ok([])
    else
      var n := names[|names| - 1];
      var front := UpdatesNeeded(names[..|names| - 1], remote, local);
      if front.Err? then front
      else
        match PyLess(LocalVersion(local, n), Version(remote[n]))
        case None => Err("TypeError")
        case Some(newer) => Ok(front.value + if newer then [n] else [])
  }

  /** Versions that are lists compare as Python lists do, so remote `[2]` over local `[1]` is an update. */
  lemma ListVersionsCompare()
    ensures UpdatesNeeded(["g"], map["g" := map["version" := JList([JInt(2)])]],
                          map["g" := map["version" := JList([JInt(1)])]]) == Ok(["g"])
  {
    var remote: map<string, Entry> := map["g" := map["version" := JList([JInt(2)])]];
    var local: map<string, Entry> := map["g" := map["version" := JList([JInt(1)])]];
    assert ["g"][..0] == [];
    assert !PyEq(JInt(1), JInt(2));
    assert PyLess(LocalVersion(local, "g"), Version(remote["g"])) == Some(true);
    assert UpdatesNeeded(["g"][..0], remote, local) == Ok([]);
    assert [] + ["g"] == ["g"];
  }

  /** The remote version of `n` is greater than its local version. */
  predicate Newer(n: string, remote: map<string, Entry>, local: map<string, Entry>)
    requires n in remote
  {
    PyLess(LocalVersion(local, n), Version(remote[n])) == Some(true)
  }

  /** Every version pair of the listed names can be compared. */
  predicate AllComparable(names: seq<string>, remote: map<string, Entry>, local: map<string, Entry>)
    requires forall n :: n in names ==> n in remote
  {
    forall i :: 0 <= i < |names| ==> PyLess(LocalVersion(local, names[i]), Version(remote[names[i]])).Some?
  }

  /** The update list fails exactly when some version pair cannot be compared. */
  lemma {:induction false} UpdatesNeededOk(names: seq<string>, remote: map<string, Entry>, local: map<string, Entry>)
    requires forall n :: n in names ==> n in remote
    ensures UpdatesNeeded(names, remote, local).Ok? <==> AllComparable(names, remote, local)
    decreases |names|
  {
    if names != [] {
      var m := |names| - 1;
      var front := names[..m];
      UpdatesNeededOk(front, remote, local);
      var last := PyLess(LocalVersion(local, names[m]), Version(remote[names[m]]));
      assert UpdatesNeeded(names, remote, local).Ok? <==> UpdatesNeeded(front, remote, local).Ok? && last.Some?;
      assert AllComparable(names, remote, local) <==> AllComparable(front, remote, local) && last.Some? by {
        assert forall i :: 0 <= i < m ==> front[i] == names[i];
      }
    }
  }

  /** A failure on a prefix of the names is a failure of the whole list. */
  lemma UpdatesNeededErrPrefix(names: seq<string>, remote: map<string, Entry>, local: map<string, Entry>, i: nat)
    requires forall n :: n in names ==> n in remote
    requires i <= |names| && UpdatesNeeded(names[..i], remote, local).Err?
    ensures UpdatesNeeded(names, remote, local).Err?
  {
    UpdatesNeededOk(names[..i], remote, local);
    UpdatesNeededOk(names, remote, local);
    var j :| 0 <= j < i && PyLess(LocalVersion(local, names[..i][j]), Version(remote[names[..i][j]])).None?;
    assert names[..i][j] == names[j];
  }

  /** A listed name is a remote name whose remote version is newer, and each such name is listed. */
  lemma {:induction false} UpdatesNeededMembers(names: seq<string>, remote: map<string, Entry>, local: map<string, Entry>)
    requires forall n :: n in names ==> n in remote
    requires UpdatesNeeded(names, remote, local).Ok?
    ensures forall n :: n in UpdatesNeeded(names, remote, local).value <==> n in names && Newer(n, remote, local)
    decreases |names|
  {
    if names != [] {
      var m := |names| - 1;
      var front := names[..m];
      assert forall n :: n in names <==> n in front || n == names[m];
      UpdatesNeededMembers(front, remote, local);
    }
  }

  /** The listed names keep the remote index's order: they are picked at increasing positions. */
  lemma {:induction false} UpdatesNeededOrdered(names: seq<string>, remote: map<string, Entry>, local: map<string, Entry>)
    returns (idx: seq<nat>)
    requires forall n :: n in names ==> n in remote
    requires UpdatesNeeded(names, remote, local).Ok?
    ensures var r := UpdatesNeeded(names, remote, local).value;
      |idx| == |r| && (forall k :: 0 <= k < |idx| ==> idx[k] < |names| && names[idx[k]] == r[k])
      && forall k, l :: 0 <= k < l < |idx| ==> idx[k] < idx[l]
    decreases |names|
  {
    if names == [] {
      return [];
    }
    var m := |names| - 1;
    var front := names[..m];
    assert forall i :: 0 <= i < m ==> front[i] == names[i];
    var f := UpdatesNeeded(front, remote, local).value;
    idx := UpdatesNeededOrdered(front, remote, local);
    if Newer(names[m], remote, local) {
      idx := idx + [m];
    }
  }

  /** A remote index lists each name once, so the update list has no duplicates. */
  lemma UpdatesNeededDistinct(names: seq<string>, remote: map<string, Entry>, local: map<string, Entry>)
    requires forall n :: n in names ==> n in remote
    requires Distinct(names) && UpdatesNeeded(names, remote, local).Ok?
    ensures Distinct(UpdatesNeeded(names, remote, local).value)
  {
    var r := UpdatesNeeded(names, remote, local).value;
    var idx := UpdatesNeededOrdered(names, remote, local);
    forall k, l | 0 <= k < l < |r| ensures r[k] != r[l] {
      assert names[idx[k]] == r[k] && names[idx[l]] == r[l] && idx[k] < idx[l];
    }
  }

  /** `_update_local_index` for one remote name: its entry takes the remote version and the time `now`. */
  function SyncOne(local: map<string, Entry>, n: string, remoteInfo: Entry, now: string): (r: map<string, Entry>)
    ensures r.Keys == local.Keys + {n}
    ensures forall m :: m in local && m != n ==> r[m] == local[m]
    ensures Version(r[n]) == Version(remoteInfo) && "last_updated" in r[n] && r[n]["last_updated"] == JString(now)
    ensures n in local ==> forall f :: f in local[n] && f != "version" && f != "last_updated" ==> f in r[n] && r[n][f] == local[n][f]
  {
    var e := if n in local then local[n] else map[];
    local[n := e["version" := Version(remoteInfo)]["last_updated" := JString(now)]]
  }

  /** `_update_local_index` over the remote names `names`, in order. */
  function Synced(local: map<string, Entry>, names: seq<string>, remote: map<string, Entry>, now: string)
    : (r: map<string, Entry>)
    requires forall n :: n in names ==> n in remote
    ensures local.Keys <= r.Keys
    decreases |names|
  {
    if names == [] then local
    else
      var n := names[|names| - 1];
      SyncOne(Synced(local, names[..|names| - 1], remote, now), n, remote[n], now)
  }

  /** One more name in the update is one more `SyncOne` step. */
  lemma SyncedSnoc(local: map<string, Entry>, names: seq<string>, i: nat, remote: map<string, Entry>, now: string)
    requires i < |names| && forall n :: n in names ==> n in remote
    ensures forall n :: n in names[..i] ==> n in remote
    ensures Synced(local, names[..i + 1], remote, now)
            == SyncOne(Synced(local, names[..i], remote, now), names[i], remote[names[i]], now)
  {
    assert names[..i + 1][..i] == names[..i];
  }

  /**
   * After the update every remote game's local version is its remote version,
   * its other fields are kept, and games known only locally are untouched.
   */
  lemma SyncedContents(local: map<string, Entry>, names: seq<string>, remote: map<string, Entry>, now: string)
    requires forall n :: n in names ==> n in remote
    ensures forall n :: n in Synced(local, names, remote, now) <==> n in local || n in names
    ensures forall n :: n in names ==> Version(Synced(local, names, remote, now)[n]) == Version(remote[n])
    ensures forall n :: n in names ==>
              "last_updated" in Synced(local, names, remote, now)[n]
              && Synced(local, names, remote, now)[n]["last_updated"] == JString(now)
    ensures forall n, f :: n in names && n in local && f in local[n] && f != "version" && f != "last_updated" ==>
              f in Synced(local, names, remote, now)[n] && Synced(local, names, remote, now)[n][f] == local[n][f]
    ensures forall n :: n in local && n !in names ==> Synced(local, names, remote, now)[n] == local[n]
  {
    SyncedUpdated(local, names, remote, now);
    SyncedKept(local, names, remote, now);
  }

  /** The remote games are in the updated index with the remote version and the time of the update. */
  lemma {:induction false} SyncedUpdated(local: map<string, Entry>, names: seq<string>, remote: map<string, Entry>, now: string)
    requires forall n :: n in names ==> n in remote
    ensures forall n :: n in Synced(local, names, remote, now) <==> n in local || n in names
    ensures forall n :: n in names ==> Version(Synced(local, names, remote, now)[n]) == Version(remote[n])
    ensures forall n :: n in names ==>
              "last_updated" in Synced(local, names, remote, now)[n]
              && Synced(local, names, remote, now)[n]["last_updated"] == JString(now)
    decreases |names|
  {
    if names != [] {
      var front := names[..|names| - 1];
      var n := names[|names| - 1];
      assert forall x :: x in names <==> x in front || x == n;
      SyncedUpdated(local, front, remote, now);
      SyncOneContents(Synced(local, front, remote, now), n, remote[n], now);
    }
  }

  /** The other fields of a remote game's entry, and the entries of games known only locally, are kept. */
  lemma {:induction false} SyncedKept(local: map<string, Entry>, names: seq<string>, remote: map<string, Entry>, now: string)
    requires forall n :: n in names ==> n in remote
    ensures forall n :: n in local || n in names ==> n in Synced(local, names, remote, now)
    ensures forall n, f :: n in names && n in local && f in local[n] && f != "version" && f != "last_updated" ==>
              f in Synced(local, names, remote, now)[n] && Synced(local, names, remote, now)[n][f] == local[n][f]
    ensures forall n :: n in local && n !in names ==> Synced(local, names, remote, now)[n] == local[n]
    decreases |names|
  {
    if names != [] {
      var front := names[..|names| - 1];
      var n := names[|names| - 1];
      assert forall x :: x in names <==> x in front || x == n;
      SyncedKept(local, front, remote, now);
      SyncOneContents(Synced(local, front, remote, now), n, remote[n], now);
    }
  }

  /** One name's update: its entry gets the version and the time; every other entry is kept. */
  lemma SyncOneContents(local: map<string, Entry>, n: string, remoteInfo: Entry, now: string)
    ensures SyncOne(local, n, remoteInfo, now).Keys == local.Keys + {n}
    ensures Version(SyncOne(local, n, remoteInfo, now)[n]) == Version(remoteInfo)
    ensures "last_updated" in SyncOne(local, n, remoteInfo, now)[n]
            && SyncOne(local, n, remoteInfo, now)[n]["last_updated"] == JString(now)
    ensures forall f :: n in local && f in local[n] && f != "version" && f != "last_updated" ==>
              f in SyncOne(local, n, remoteInfo, now)[n] && SyncOne(local, n, remoteInfo, now)[n][f] == local[n][f]
    ensures forall x :: x in local && x != n ==> SyncOne(local, n, remoteInfo, now)[x] == local[x]
  {
  }

  /** Listing the updates right after updating the index finds nothing to do. */
  lemma {:induction false} NothingNeededAfterSync(local: map<string, Entry>, names: seq<string>,
                                                  remote: map<string, Entry>, now: string, upTo: nat)
    requires forall n :: n in names ==> n in remote
    requires forall n :: n in names ==> Comparable(Version(remote[n]))
    requires upTo <= |names|
    ensures UpdatesNeeded(names[..upTo], remote, Synced(local, names, remote, now)) == Ok([])
    decreases upTo
  {
    SyncedContents(local, names, remote, now);
    if upTo > 0 {
      assert names[..upTo][..upTo - 1] == names[..upTo - 1];
      NothingNeededAfterSync(local, names, remote, now, upTo - 1);
      var n := names[upTo - 1];
      assert names[..upTo][upTo - 1] == n && n in names;
      var synced := Synced(local, names, remote, now);
      assert n in synced && LocalVersion(synced, n) == Version(remote[n]);
      PyLessIrreflexive(Version(remote[n]));
      var none: seq<string> := [];
      assert UpdatesNeeded(names[..upTo], remote, synced) == Ok(none + none);
      assert none + none == none;
    }
  }

  /** How many of `names` are in `ok`, counting repeats. */
  function CountIn(names: seq<string>, ok: set<string>): (c: nat)
    ensures c <= |names|
    decreases |names|
  {
    if names == [] then 0
    else CountIn(names[..|names| - 1], ok) + if names[|names| - 1] in ok then 1 else 0
  }

  /** At least one success is counted exactly when some name's download succeeds. */
  lemma {:induction false} CountPositive(names: seq<string>, ok: set<string>)
    ensures CountIn(names, ok) > 0 <==> exists i :: 0 <= i < |names| && names[i] in ok
    decreases |names|
  {
    if names != [] {
      var front := names[..|names| - 1];
      CountPositive(front, ok);
      assert forall i :: 0 <= i < |front| ==> front[i] == names[i];
    }
  }

  /**
   * `{release['tag_name']: release for release in response_data}`: a later
   * release with the same tag takes the first one's place. Each release must
   * be an object with a hashable `tag_name`.
   */
  function IndexByTag(data: seq<Json>): (r: Result<OrderedMap<Json, Json>>)
    ensures r.Ok? ==> r.value.Valid()
    decreases |data|
  {
    if data == [] then Ok(Empty())
    else
      var front := IndexByTag(data[..|data| - 1]);
      var rel := data[|data| - 1];
      if front.Err? then front
      else if !rel.JObject? then Err("TypeError")
      else if "tag_name" !in rel.fields then Err("KeyError")
      else if rel.fields["tag_name"].JList? || rel.fields["tag_name"].JObject? then Err("TypeError")
      else Ok(Put(front.value, rel.fields["tag_name"], rel))
  }

  /** A release object with a hashable tag. */
  predicate Indexable(rel: Json) {
    rel.JObject? && "tag_name" in rel.fields && !rel.fields["tag_name"].JList? && !rel.fields["tag_name"].JObject?
  }

  function TagOf(rel: Json): Json
    requires Indexable(rel)
  {
    rel.fields["tag_name"]
  }

  /** Re-indexing succeeds exactly when every release is indexable. */
  lemma {:induction false} IndexByTagOk(data: seq<Json>)
    ensures IndexByTag(data).Ok? <==> forall i :: 0 <= i < |data| ==> Indexable(data[i])
    decreases |data|
  {
    if data != [] {
      var m := |data| - 1;
      IndexByTagOk(data[..m]);
      assert IndexByTag(data).Ok? <==> IndexByTag(data[..m]).Ok? && Indexable(data[m]);
      assert (forall i :: 0 <= i < |data| ==> Indexable(data[i]))
         <==> (forall i :: 0 <= i < m ==> Indexable(data[..m][i])) && Indexable(data[m]) by {
        assert forall i :: 0 <= i < m ==> data[..m][i] == data[i];
      }
    }
  }

  /** Every tag of the data is a key of the index. */
  lemma {:induction false} IndexByTagHasTags(data: seq<Json>)
    requires IndexByTag(data).Ok?
    ensures forall i :: 0 <= i < |data| ==> Indexable(data[i]) && TagOf(data[i]) in IndexByTag(data).value.values
    decreases |data|
  {
    if data != [] {
      var m := |data| - 1;
      var front := IndexByTag(data[..m]);
      assert front.Ok? && Indexable(data[m]);
      assert IndexByTag(data).value == Put(front.value, TagOf(data[m]), data[m]);
      IndexByTagHasTags(data[..m]);
      forall i | 0 <= i < |data| ensures Indexable(data[i]) && TagOf(data[i]) in IndexByTag(data).value.values {
        if i < m {
          assert data[..m][i] == data[i];
        }
      }
    }
  }

  /** Every key of the index is the tag of some release. */
  lemma {:induction false} IndexByTagOnlyTags(data: seq<Json>, t: Json)
    requires IndexByTag(data).Ok? && t in IndexByTag(data).value.values
    ensures exists i :: 0 <= i < |data| && Indexable(data[i]) && TagOf(data[i]) == t
    decreases |data|
  {
    var m := |data| - 1;
    var last := data[m];
    if !(Indexable(last) && TagOf(last) == t) {
      IndexByTagOnlyTags(data[..m], t);
      var i :| 0 <= i < m && Indexable(data[..m][i]) && TagOf(data[..m][i]) == t;
      assert data[..m][i] == data[i];
    }
  }

  /** A tag maps to the LAST release carrying it: a later duplicate overwrites an earlier one. */
  lemma {:induction false} IndexByTagLastWins(data: seq<Json>, i: nat)
    requires IndexByTag(data).Ok? && i < |data|
    requires Indexable(data[i]) && forall j :: i < j < |data| ==> !Indexable(data[j]) || TagOf(data[j]) != TagOf(data[i])
    ensures TagOf(data[i]) in IndexByTag(data).value.values
    ensures IndexByTag(data).value.values[TagOf(data[i])] == data[i]
    decreases |data|
  {
    var m := |data| - 1;
    IndexByTagHasTags(data);
    if i < m {
      assert forall j :: 0 <= j < m ==> data[..m][j] == data[j];
      IndexByTagLastWins(data[..m], i);
    }
  }

  /**
   * `load_game_database`: `None` for a missing or nameless game type, a
   * missing or unreadable file, or data that is not an object; a missing
   * `releases` field is added as `{}`.
   */
  function LoadGameDatabase(gameType: Option<GameType>, file: FileState): (r: Option<map<string, Json>>)
    ensures gameType.None? || gameType.value.name == "" ==> r.None?
    ensures file.Missing? || file.Unreadable? || (file.Parsed? && !file.value.JObject?) ==> r.None?
    ensures gameType.Some? && gameType.value.name != "" && file.Parsed? && file.value.JObject? ==>
              r.Some? && "releases" in r.value
              && (forall k :: k in file.value.fields ==> k in r.value && r.value[k] == file.value.fields[k])
              && ("releases" !in file.value.fields ==> r.value == file.value.fields["releases" := JObject(map[])])
              && ("releases" in file.value.fields ==> r.value == file.value.fields)
  {
    if gameType.None? || gameType.value.name == "" then None
    else match file
      case Missing => None
      case Unreadable => None
      case Parsed(data) =>
        if !data.JObject? then None
        else if "releases" !in data.fields then Some(data.fields["releases" := JObject(map[])])
        else Some(data.fields)
  }

  /** The bookkeeping state of `CataclysmDbManager`. */
  class CataclysmDbManager {
    var localIndex: map<string, Entry>
    var remoteIndex: OrderedMap<string, Entry>

    constructor ()
      ensures localIndex == map[] && remoteIndex == Empty()
    {
      localIndex := map[];
      remoteIndex := Empty();
    }

    /** `_determine_updates_needed`. */
    method DetermineUpdatesNeeded() returns (r: Result<seq<string>>)
      requires remoteIndex.Valid()
      ensures r == UpdatesNeeded(remoteIndex.keys, remoteIndex.values, localIndex)
    {
      var names := remoteIndex.keys;
      var needed: seq<string> := [];
      for i := 0 to |names|
        invariant UpdatesNeeded(names[..i], remoteIndex.values, localIndex) == Ok(needed)
      {
        var n := names[i];
        assert names[..i + 1][..i] == names[..i];
        var remoteVersion := Version(remoteIndex.values[n]);
        var localVersion := LocalVersion(localIndex, n);
        var newer := PyLess(localVersion, remoteVersion);
        if newer.None? {
          UpdatesNeededErrPrefix(names, remoteIndex.values, localIndex, i + 1);
          return Err("TypeError");
        }
        var added := if newer.value then [n] else [];
        assert UpdatesNeeded(names[..i + 1], remoteIndex.values, localIndex) == Ok(needed + added);
        needed := needed + added;
      }
      assert names[..|names|] == names;
      return Ok(needed);
    }

    /** `_update_local_index` (the in-memory part): `now` is the time written to each entry. */
    method UpdateLocalIndex(now: string)
      requires remoteIndex.Valid()
      modifies this`localIndex
      ensures remoteIndex == old(remoteIndex)
      ensures localIndex == Synced(old(localIndex), remoteIndex.keys, remoteIndex.values, now)
    {
      var names := remoteIndex.keys;
      var local := localIndex;
      for i := 0 to |names|
        invariant local == Synced(old(localIndex), names[..i], remoteIndex.values, now)
        modifies {}
      {
        var n := names[i];
        SyncedSnoc(old(localIndex), names, i, remoteIndex.values, now);
        ghost var before := local;
        var entry := if n in local then local[n] else map[];
        entry := entry["version" := Version(remoteIndex.values[n])];
        entry := entry["last_updated" := JString(now)];
        local := local[n := entry];
        assert local == SyncOne(before, n, remoteIndex.values[n], now);
      }
      assert names[..|names|] == names;
      localIndex := local;
    }
  }

  /**
   * `_download_database_updates`: `ok` holds the names whose single download
   * succeeds; the result is whether at least one did.
   */
  method DownloadDatabaseUpdates(names: seq<string>, ok: set<string>) returns (success: bool)
    ensures success <==> exists i :: 0 <= i < |names| && names[i] in ok
  {
    var successCount := 0;
    for i := 0 to |names|
      invariant successCount == CountIn(names[..i], ok)
    {
      assert names[..i + 1][..i] == names[..i];
      if names[i] in ok {
        successCount := successCount + 1;
      }
    }
    assert names[..|names|] == names;
    CountPositive(names, ok);
    success := successCount > 0;
  }
}
