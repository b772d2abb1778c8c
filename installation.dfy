/**
 * Installation records: the metadata written to `install_info.json` for each
 * installed build, its dictionary form, and the context object that tracks an
 * installation in progress.
 */
module Installations {
  import opened Wrappers
  import opened Json
  import opened GameTypes
  import opened Releases

  const InfoFilename: string := "install_info.json"

  datatype InstallationStatus = Pending | Extracting | Installing | Completed | Failed | Cancelled

  /** The enum's value strings. */
  function StatusValue(s: InstallationStatus): (v: string) {
    match s
    case Pending => "pending"
    case Extracting => "extracting"
    case Installing => "installing"
    case Completed => "completed"
    case Failed => "failed"
    case Cancelled => "cancelled"
  }

  lemma StatusValueInjective(a: InstallationStatus, b: InstallationStatus)
    requires StatusValue(a) == StatusValue(b)
    ensures a == b
  {
  }

  /** `GameInstallation`: the record is never changed after construction. */
  datatype GameInstallation = GameInstallation(
    metadataVersion: string,
    name: string,
    version: string,
    gameType: GameType,
    channel: Channel,
    assetName: string,
    assetSize: int,
    downloadUrl: string,
    releaseId: string,
    releasePublishedAt: string,
    releaseBody: string,
    installationSize: int,
    installDate: string,
    installPath: string)

  /**
   * `GameInstallation.__init__`: the metadata version is always "1.0" and the
   * install date is the construction time `now` (`datetime.now().isoformat()`).
   */
  function NewInstallation(name: string, version: string, gameType: GameType, channel: Channel,
                           assetName: string, assetSize: int, downloadUrl: string, releaseId: string,
                           releasePublishedAt: string, releaseBody: string, installationSize: int,
                           installPath: string, now: string): (g: GameInstallation)
    ensures g.metadataVersion == "1.0" && g.installDate == now
    ensures g.name == name && g.version == version && g.gameType == gameType && g.channel == channel
    ensures g.assetName == assetName && g.assetSize == assetSize && g.downloadUrl == downloadUrl
    ensures g.releaseId == releaseId && g.releasePublishedAt == releasePublishedAt
    ensures g.releaseBody == releaseBody && g.installationSize == installationSize && g.installPath == installPath
  {
    GameInstallation("1.0", name, version, gameType, channel, assetName, assetSize, downloadUrl,
      releaseId, releasePublishedAt, releaseBody, installationSize, now, installPath)
  }

  /** The keys `to_dict` writes. */
  function DictKeys(): set<string> {
    {"metadata_version", "name", "version", "game_type", "channel", "asset_name", "asset_size",
     "download_url", "release_id", "release_published_at", "release_body", "installation_size",
     "install_date", "install_path"}
  }

  /** `to_dict`: the fourteen keys of the record. */
  function ToDict(g: GameInstallation): (d: map<string, Json>)
    ensures d.Keys == DictKeys()
  {
    map[
      "metadata_version" := JString(g.metadataVersion),
      "name" := JString(g.name),
      "version" := JString(g.version),
      "game_type" := JString(g.gameType.name),
      "channel" := JString(g.channel.value),
      "asset_name" := JString(g.assetName),
      "asset_size" := JInt(g.assetSize),
      "download_url" := JString(g.downloadUrl),
      "release_id" := JString(g.releaseId),
      "release_published_at" := JString(g.releasePublishedAt),
      "release_body" := JString(g.releaseBody),
      "installation_size" := JInt(g.installationSize),
      "install_date" := JString(g.installDate),
      "install_path" := JString(g.installPath)]
  }

  /** `data.get(key, default)` where the value must be a string. */
  function StringField(d: map<string, Json>, key: string, default: string): (r: Result<string>)
    ensures key !in d ==> r == Ok(default)
    ensures key in d && d[key].JString? ==> r == Ok(d[key].s)
    ensures key in d && !d[key].JString? ==> r.Err?
  {
    if key !in d then Ok(default)
    else if d[key].JString? then Ok(d[key].s)
    else Err("TypeError")
  }

  /** `data.get(key, 0)` where the value must be an integer. */
  function IntField(d: map<string, Json>, key: string): (r: Result<int>)
    ensures key !in d ==> r == Ok(0)
    ensures key in d && d[key].JInt? ==> r == Ok(d[key].i)
    ensures key in d && !d[key].JInt? ==> r.Err?
  {
    if key !in d then Ok(0)
    else if d[key].JInt? then Ok(d[key].i)
    else Err("TypeError")
  }

  /**
   * `get_game_type_by_name(data.get("game_type", "other"))`: a value that is
   * not a string equals no registered name, so it also gives `other`.
   */
  function GameTypeField(d: map<string, Json>, types: seq<GameType>): (g: GameType)
    ensures "game_type" !in d ==> g == ByName(types, "other")
    ensures "game_type" in d && d["game_type"].JString? ==> g == ByName(types, d["game_type"].s)
    ensures "game_type" in d && !d["game_type"].JString? ==> g == Other()
  {
    if "game_type" !in d then ByName(types, "other")
    else if d["game_type"].JString? then ByName(types, d["game_type"].s)
    else Other()
  }

  /**
   * `ReleaseChannel(data.get("channel", "unknown"))`: `channelValues` are the
   * enum's values; any other value raises `ValueError`.
   */
  function ChannelField(d: map<string, Json>, channelValues: set<string>): (r: Result<Channel>)
    ensures r.Ok? ==> r.value.value in channelValues
    ensures "channel" in d && d["channel"].JString? && d["channel"].s in channelValues ==> r == Ok(Channel(d["channel"].s))
    ensures "channel" !in d ==> r == (if "unknown" in channelValues then Ok(Channel("unknown")) else Err("ValueError"))
  {
    var v := if "channel" in d then d["channel"] else JString("unknown");
    if v.JString? && v.s in channelValues then Ok(Channel(v.s)) else Err("ValueError")
  }

  /**
   * `GameInstallation.from_dict`: missing keys take their defaults; the
   * registered game types and channel values are parameters, and `now` is
   * the construction time.
   */
  function FromDict(d: map<string, Json>, types: seq<GameType>, channelValues: set<string>, now: string)
    : (r: Result<GameInstallation>)
    ensures r.Ok? ==> r.value.metadataVersion == "1.0" && r.value.installDate == now
    ensures r.Ok? ==> r.value.gameType == GameTypeField(d, types)
  {
    var name := StringField(d, "name", "unknown");
    var version := StringField(d, "version", "unknown");
    var channel := ChannelField(d, channelValues);
    var assetName := StringField(d, "asset_name", "unknown");
    var assetSize := IntField(d, "asset_size");
    var downloadUrl := StringField(d, "download_url", "");
    var releaseId := StringField(d, "release_id", "");
    var publishedAt := StringField(d, "release_published_at", "");
    var body := StringField(d, "release_body", "");
    var installationSize := IntField(d, "installation_size");
    var installPath := StringField(d, "install_path", "");
    if channel.Err? then Err(channel.error)
    else if name.Err? || version.Err? || assetName.Err? || assetSize.Err? || downloadUrl.Err? || releaseId.Err?
      || publishedAt.Err? || body.Err? || installationSize.Err? || installPath.Err? then Err("TypeError")
    else
      Ok(NewInstallation(name.value, version.value, GameTypeField(d, types), channel.value,
        assetName.value, assetSize.value, downloadUrl.value, releaseId.value, publishedAt.value,
        body.value, installationSize.value, installPath.value, now))
  }

  /** Each missing key of a loaded record takes its default: `unknown`, 0 or the empty string. */
  lemma FromDictDefaults(d: map<string, Json>, types: seq<GameType>, channelValues: set<string>, now: string)
    requires FromDict(d, types, channelValues, now).Ok?
    ensures var g := FromDict(d, types, channelValues, now).value;
      && ("name" !in d ==> g.name == "unknown")
      && ("version" !in d ==> g.version == "unknown")
      && ("asset_name" !in d ==> g.assetName == "unknown")
      && ("asset_size" !in d ==> g.assetSize == 0)
      && ("installation_size" !in d ==> g.installationSize == 0)
      && ("download_url" !in d ==> g.downloadUrl == "")
      && ("release_id" !in d ==> g.releaseId == "")
      && ("release_published_at" !in d ==> g.releasePublishedAt == "")
      && ("release_body" !in d ==> g.releaseBody == "")
      && ("install_path" !in d ==> g.installPath == "")
  {
  }

  /**
   * `from_dict(to_dict(g))` keeps every field except three: the game type is
   * looked up again by name, the install date is the new construction time,
   * and the metadata version is reset to "1.0".
   */
  lemma FromDictToDict(g: GameInstallation, types: seq<GameType>, channelValues: set<string>, now: string)
    requires g.channel.value in channelValues
    ensures FromDict(ToDict(g), types, channelValues, now)
         == Ok(g.(gameType := ByName(types, g.gameType.name), installDate := now, metadataVersion := "1.0"))
  {
    var d := ToDict(g);
    ToDictStored(g);
    ToDictNames(g);
    ToDictAssets(g);
    ToDictReleases(g);
    assert "name" in d && "version" in d && "install_path" in d && "asset_name" in d && "asset_size" in d;
    assert "installation_size" in d && "download_url" in d && "release_id" in d;
    assert "release_published_at" in d && "release_body" in d && "channel" in d && "game_type" in d;
    assert ChannelField(d, channelValues) == Ok(g.channel);
    assert StringField(d, "name", "unknown") == Ok(g.name) && StringField(d, "version", "unknown") == Ok(g.version);
    assert StringField(d, "asset_name", "unknown") == Ok(g.assetName) && IntField(d, "asset_size") == Ok(g.assetSize);
    assert StringField(d, "download_url", "") == Ok(g.downloadUrl) && StringField(d, "release_id", "") == Ok(g.releaseId);
    assert StringField(d, "release_published_at", "") == Ok(g.releasePublishedAt);
    assert StringField(d, "release_body", "") == Ok(g.releaseBody);
    assert IntField(d, "installation_size") == Ok(g.installationSize);
    assert StringField(d, "install_path", "") == Ok(g.installPath);
    assert GameTypeField(d, types) == ByName(types, g.gameType.name);
  }

  /** The game type is stored by its name and the channel by its value. */
  lemma ToDictStored(g: GameInstallation)
    ensures var d := ToDict(g);
      d["game_type"] == JString(g.gameType.name) && d["channel"] == JString(g.channel.value)
      && d["install_date"] == JString(g.installDate) && d["metadata_version"] == JString(g.metadataVersion)
  {
  }

  lemma ToDictNames(g: GameInstallation)
    ensures var d := ToDict(g);
      d["name"] == JString(g.name) && d["version"] == JString(g.version) && d["install_path"] == JString(g.installPath)
  {
  }

  lemma ToDictAssets(g: GameInstallation)
    ensures var d := ToDict(g);
      d["asset_name"] == JString(g.assetName) && d["asset_size"] == JInt(g.assetSize)
      && d["installation_size"] == JInt(g.installationSize) && d["download_url"] == JString(g.downloadUrl)
  {
  }

  lemma ToDictReleases(g: GameInstallation)
    ensures var d := ToDict(g);
      d["release_id"] == JString(g.releaseId) && d["release_published_at"] == JString(g.releasePublishedAt)
      && d["release_body"] == JString(g.releaseBody)
  {
  }

  /** A registered game type (names being unique) comes back as itself. */
  lemma GameTypeRoundTrip(g: GameInstallation, types: seq<GameType>, channelValues: set<string>, now: string)
    requires g.channel.value in channelValues
    requires g.gameType in types && NamesDistinct(types)
    ensures FromDict(ToDict(g), types, channelValues, now).Ok?
         && FromDict(ToDict(g), types, channelValues, now).value.gameType == g.gameType
  {
    FromDictToDict(g, types, channelValues, now);
    var i :| 0 <= i < |types| && types[i] == g.gameType;
    assert forall j :: 0 <= j < i ==> types[j].name != g.gameType.name;
  }

  /** An unregistered game-type name comes back as `other`. */
  lemma UnregisteredGameTypeIsOther(g: GameInstallation, types: seq<GameType>, channelValues: set<string>, now: string)
    requires g.channel.value in channelValues
    requires forall i :: 0 <= i < |types| ==> types[i].name != g.gameType.name
    ensures FromDict(ToDict(g), types, channelValues, now).Ok?
         && FromDict(ToDict(g), types, channelValues, now).value.gameType == Other()
  {
    FromDictToDict(g, types, channelValues, now);
  }

  /**
   * `InstallationContext`: the record of an installation flow from download
   * request to completion. The fields the flow later updates are mutable.
   */
  class InstallationContext {
    const contextId: string
    const release: Release
    const asset: Asset
    const updateExisting: bool
    const startedAt: int
    var status: InstallationStatus
    var progress: real
    var downloadFilePath: string
    var installPath: string

    /** A new context is pending with no progress and no paths yet; `now` is the start time. */
    constructor (release: Release, asset: Asset, updateExisting: bool, contextId: string, now: int)
      ensures this.contextId == contextId && this.release == release && this.asset == asset
      ensures this.updateExisting == updateExisting && startedAt == now
      ensures status == Pending && progress == 0.0 && downloadFilePath == "" && installPath == ""
    {
      this.contextId := contextId;
      this.release := release;
      this.asset := asset;
      this.updateExisting := updateExisting;
      startedAt := now;
      status := Pending;
      progress := 0.0;
      downloadFilePath := "";
      installPath := "";
    }
  }
}
