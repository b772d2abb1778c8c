/**
 * The release records the launcher's bookkeeping handles. Only the fields the
 * modelled code reads are kept; a missing tag (`None`) and an empty tag are
 * both the empty string, which Python treats alike (both are falsy).
 */
module Releases {
  import opened GameTypes

  /** A `ReleaseChannel` member, known by its value string. */
  datatype Channel = Channel(value: string)

  datatype Release = Release(
    tagName: string,
    name: string,
    gameType: GameType,
    channel: Channel,
    id: string,
    publishedAt: string,
    body: string)

  datatype Asset = Asset(name: string, size: int, downloadUrl: string)

  /** The tags of a list of releases, in order. */
  function Tags(rs: seq<Release>): (ts: seq<string>)
    ensures |ts| == |rs| && forall i :: 0 <= i < |rs| ==> ts[i] == rs[i].tagName
  {
    if rs == [] then [] else [rs[0].tagName] + Tags(rs[1..])
  }
}
