/**
 * The release cache: for each game type the known releases by tag (newest
 * first) and the same releases bucketed by channel; the merge of freshly
 * fetched releases into it; and the decision whether a listing must fetch.
 */
module ReleaseManagers {
  import opened Wrappers
  import opened OrderedMaps
  import opened GameTypes
  import opened Releases

  /** A tag-to-release dict. */
  type Bucket = OrderedMap<string, Release>

  /** A cached listing goes stale after three hours, in seconds. */
  const StaleAfter: int := 3 * 60 * 60

  /** Every release is filed under its own, non-empty tag. */
  ghost predicate Tagged(b: Bucket) {
    b.Valid() && "" !in b.values && forall k :: k in b.values ==> b.values[k].tagName == k
  }

  // ---- the channel view of a bucket ----

  /** The keys, in order, whose release belongs to channel `ch`. */
  function ChannelKeys(keys: seq<string>, values: map<string, Release>, ch: Channel): (r: seq<string>)
    requires forall k :: k in keys ==> k in values
    ensures forall k :: k in r <==> k in keys && values[k].channel == ch
    ensures Distinct(keys) ==> Distinct(r)
    decreases |keys|
  {
    if keys == [] then []
    else
      var k := keys[|keys| - 1];
      var prefix := keys[..|keys| - 1];
      assert keys == prefix + [k];
      var rest := ChannelKeys(prefix, values, ch);
      if values[k].channel == ch then
        if Distinct(keys) then
          assert Distinct(prefix) by {
            forall i, j | 0 <= i < j < |prefix| ensures prefix[i] != prefix[j] {
              assert prefix[i] == keys[i] && prefix[j] == keys[j];
            }
          }
          assert k !in prefix by {
            forall i | 0 <= i < |prefix| ensures prefix[i] != k {
              assert prefix[i] == keys[i];
            }
          }
          DistinctSnoc(rest, k);
          rest + [k]
        else
          rest + [k]
      else rest
  }

  /** The releases of `b` in channel `ch`, in `b`'s order. */
  function OfChannel(b: Bucket, ch: Channel): (r: Bucket)
    requires b.Valid()
    ensures r.Valid()
    ensures forall k :: k in r.values <==> k in b.values && b.values[k].channel == ch
    ensures forall k :: k in r.values ==> r.values[k] == b.values[k]
  {
    OrderedMap(ChannelKeys(b.keys, b.values, ch), Filter(b.values.Keys, b.values, ch))
  }

  /** Filtering a sequence that starts with `k` starts with `k` exactly when `k` is in the channel. */
  lemma {:induction false} ChannelKeysCons(k: string, t: seq<string>, values: map<string, Release>, ch: Channel)
    requires k in values && forall x :: x in t ==> x in values
    ensures ChannelKeys([k] + t, values, ch)
         == (if values[k].channel == ch then [k] else []) + ChannelKeys(t, values, ch)
    decreases |t|
  {
    if t != [] {
      var s := [k] + t;
      var front := t[..|t| - 1];
      assert s[..|s| - 1] == [k] + front && s[|s| - 1] == t[|t| - 1];
      ChannelKeysCons(k, front, values, ch);
      ChannelKeysLast(s, values, ch);
      ChannelKeysLast(t, values, ch);
      SeqAssoc(if values[k].channel == ch then [k] else [], ChannelKeys(front, values, ch),
               if values[t[|t| - 1]].channel == ch then [t[|t| - 1]] else []);
    }
  }

  /** Filtering a non-empty sequence: the filtered front, then the last key if it is in the channel. */
  lemma ChannelKeysLast(keys: seq<string>, values: map<string, Release>, ch: Channel)
    requires keys != [] && forall x :: x in keys ==> x in values
    ensures ChannelKeys(keys, values, ch)
         == ChannelKeys(keys[..|keys| - 1], values, ch) + (if values[keys[|keys| - 1]].channel == ch then [keys[|keys| - 1]] else [])
  {
  }

  lemma SeqAssoc(a: seq<string>, b: seq<string>, c: seq<string>)
    ensures (a + b) + c == a + (b + c)
  {
  }

  /** Filtering does not look at the value of a key that is not listed. */
  lemma {:induction false} ChannelKeysFrame(keys: seq<string>, values: map<string, Release>, k: string, v: Release, ch: Channel)
    requires k !in keys && forall x :: x in keys ==> x in values
    ensures ChannelKeys(keys, values[k := v], ch) == ChannelKeys(keys, values, ch)
    decreases |keys|
  {
    if keys != [] {
      ChannelKeysFrame(keys[..|keys| - 1], values, k, v, ch);
    }
  }

  /** The channel views of a bucket with a new release in front, key order. */
  lemma OfChannelPrependKeys(b: Bucket, r: Release, ch: Channel)
    requires b.Valid() && r.tagName !in b.values
    ensures OfChannel(PrependUpdate(r.tagName, r, b), ch).keys
         == (if r.channel == ch then [r.tagName] else []) + OfChannel(b, ch).keys
  {
    var p := PrependUpdate(r.tagName, r, b);
    assert p.keys == [r.tagName] + b.keys && p.values == b.values[r.tagName := r];
    ChannelKeysCons(r.tagName, b.keys, p.values, ch);
    ChannelKeysFrame(b.keys, b.values, r.tagName, r, ch);
  }

  /** The channel views of a bucket with a new release in front, values. */
  lemma OfChannelPrependValues(b: Bucket, r: Release, ch: Channel)
    requires b.Valid() && r.tagName !in b.values
    ensures OfChannel(PrependUpdate(r.tagName, r, b), ch).values
         == if r.channel == ch then OfChannel(b, ch).values[r.tagName := r] else OfChannel(b, ch).values
  {
    var values := b.values[r.tagName := r];
    assert values.Keys == b.values.Keys + {r.tagName};
    FilterAdd(b.values.Keys, r.tagName, values, ch);
    FilterFrame(b.values.Keys, b.values, r.tagName, r, ch);
  }

  /** Putting a new release in front of a bucket puts it in front of its own channel's view. */
  lemma OfChannelPrependSame(b: Bucket, r: Release)
    requires b.Valid() && r.tagName !in b.values
    ensures OfChannel(PrependUpdate(r.tagName, r, b), r.channel) == PrependUpdate(r.tagName, r, OfChannel(b, r.channel))
  {
    OfChannelPrependKeys(b, r, r.channel);
    OfChannelPrependValues(b, r, r.channel);
  }

  /** ... and leaves every other channel's view as it was. */
  lemma OfChannelPrependOther(b: Bucket, r: Release, ch: Channel)
    requires b.Valid() && r.tagName !in b.values && ch != r.channel
    ensures OfChannel(PrependUpdate(r.tagName, r, b), ch) == OfChannel(b, ch)
  {
    OfChannelPrependKeys(b, r, ch);
    OfChannelPrependValues(b, r, ch);
  }

  // ---- the merge ----

  /** A game type's cache: all releases by tag, and the per-channel buckets. */
  datatype Cache = Cache(loaded: Bucket, channels: map<Channel, Bucket>)

  ghost predicate WellFormed(c: Cache) {
    c.loaded.Valid() && forall ch :: ch in c.channels ==> c.channels[ch].Valid()
  }

  /** Each channel bucket is exactly the channel's view of all releases. */
  ghost predicate Consistent(c: Cache) {
    Tagged(c.loaded) && forall ch :: ch in c.channels ==> c.channels[ch] == OfChannel(c.loaded, ch)
  }

  /** A consistent cache with a bucket for each of `channels`. */
  ghost predicate CacheOk(c: Cache, channels: set<Channel>) {
    Consistent(c) && c.channels.Keys == channels
  }

  /** Every cached game type has a consistent cache with a bucket per channel. */
  ghost predicate ManagerOk(loaded: map<GameType, Bucket>, byChannel: map<GameType, map<Channel, Bucket>>,
                            channels: set<Channel>) {
    && (forall t :: t in byChannel ==> t in loaded)
    && (forall t :: t in loaded ==> t in byChannel && CacheOk(Cache(loaded[t], byChannel[t]), channels))
  }

  /** Every release of `rs` has a bucket in `c`. */
  predicate Bucketed(c: Cache, rs: seq<Release>) {
    forall i :: 0 <= i < |rs| ==> rs[i].channel in c.channels
  }

  /**
   * `_merge_releases` on one game type's cache: the releases are taken from
   * the last to the first; an untagged one or one whose tag is already
   * cached is skipped; any other goes in front of `loaded` and in front of
   * its channel's bucket. A missing channel bucket raises KeyError after
   * `loaded` has been updated, and the handler ends the merge there.
   */
  function MergeFrom(c: Cache, rs: seq<Release>): (r: Cache)
    requires WellFormed(c)
    ensures WellFormed(r)
    decreases |rs|
  {
    if rs == [] then c
    else
      var rel := rs[|rs| - 1];
      var rest := rs[..|rs| - 1];
      if rel.tagName in c.loaded.values || rel.tagName == "" then MergeFrom(c, rest)
      else
        var loaded := PrependUpdate(rel.tagName, rel, c.loaded);
        if rel.channel !in c.channels then Cache(loaded, c.channels)
        else MergeFrom(Cache(loaded, c.channels[rel.channel := PrependUpdate(rel.tagName, rel, c.channels[rel.channel])]), rest)
  }

  /** The releases a merge adds, in input order: for a repeated tag, its last occurrence. */
  function NewReleases(rs: seq<Release>, known: set<string>): (r: seq<Release>)
    ensures forall i :: 0 <= i < |r| ==> r[i].tagName != "" && r[i].tagName !in known && r[i] in rs
    decreases |rs|
  {
    if rs == [] then []
    else
      var rel := rs[|rs| - 1];
      var rest := rs[..|rs| - 1];
      if rel.tagName != "" && rel.tagName !in known then NewReleases(rest, known + {rel.tagName}) + [rel]
      else NewReleases(rest, known)
  }

  /** A merge never changes or removes a release that was already cached. */
  lemma {:induction false} MergeKeepsExisting(c: Cache, rs: seq<Release>)
    requires WellFormed(c)
    ensures forall k :: k in c.loaded.values ==>
      k in MergeFrom(c, rs).loaded.values && MergeFrom(c, rs).loaded.values[k] == c.loaded.values[k]
    decreases |rs|
  {
    if rs != [] {
      var rel := rs[|rs| - 1];
      var rest := rs[..|rs| - 1];
      if rel.tagName in c.loaded.values || rel.tagName == "" {
        MergeKeepsExisting(c, rest);
      } else if rel.channel in c.channels {
        var loaded := PrependUpdate(rel.tagName, rel, c.loaded);
        MergeKeepsExisting(Cache(loaded, c.channels[rel.channel := PrependUpdate(rel.tagName, rel, c.channels[rel.channel])]), rest);
      }
    }
  }

  /** A merge keeps every release under its own non-empty tag: untagged releases are never added. */
  lemma {:induction false} MergeKeepsTagged(c: Cache, rs: seq<Release>)
    requires WellFormed(c) && Tagged(c.loaded)
    ensures Tagged(MergeFrom(c, rs).loaded)
    decreases |rs|
  {
    if rs != [] {
      var rel := rs[|rs| - 1];
      var rest := rs[..|rs| - 1];
      if rel.tagName in c.loaded.values || rel.tagName == "" {
        MergeKeepsTagged(c, rest);
      } else if rel.channel in c.channels {
        var loaded := PrependUpdate(rel.tagName, rel, c.loaded);
        MergeKeepsTagged(Cache(loaded, c.channels[rel.channel := PrependUpdate(rel.tagName, rel, c.channels[rel.channel])]), rest);
      }
    }
  }

  /**
   * When every release has a bucket, the new tags come first, in input
   * order, followed by the previously cached tags in their old order.
   */
  lemma {:induction false} MergeOrder(c: Cache, rs: seq<Release>)
    requires WellFormed(c) && Bucketed(c, rs)
    ensures MergeFrom(c, rs).loaded.keys == Tags(NewReleases(rs, c.loaded.values.Keys)) + c.loaded.keys
    decreases |rs|
  {
    if rs != [] {
      var rel := rs[|rs| - 1];
      var rest := rs[..|rs| - 1];
      assert Bucketed(c, rest) by {
        forall i | 0 <= i < |rest| ensures rest[i].channel in c.channels {
          assert rest[i] == rs[i];
        }
      }
      if rel.tagName in c.loaded.values || rel.tagName == "" {
        MergeOrder(c, rest);
      } else {
        assert rel.channel in c.channels by {
          assert rel == rs[|rs| - 1];
        }
        var next := MergeAdds(c, rs);
        assert Bucketed(next, rest);
        MergeOrder(next, rest);
        assert next.loaded.values.Keys == c.loaded.values.Keys + {rel.tagName};
        MergeOrderAdd(c.loaded.values.Keys, rs, c.loaded.keys, MergeFrom(c, rs).loaded.keys);
      }
    }
  }

  /** The order after a merge step that adds the last release, given the order after the rest. */
  lemma MergeOrderAdd(known: set<string>, rs: seq<Release>, oldKeys: seq<string>, result: seq<string>)
    requires rs != []
    requires NewReleases(rs, known) == NewReleases(rs[..|rs| - 1], known + {rs[|rs| - 1].tagName}) + [rs[|rs| - 1]]
    requires result == Tags(NewReleases(rs[..|rs| - 1], known + {rs[|rs| - 1].tagName})) + ([rs[|rs| - 1].tagName] + oldKeys)
    ensures result == Tags(NewReleases(rs, known)) + oldKeys
  {
    var rel := rs[|rs| - 1];
    var added := NewReleases(rs[..|rs| - 1], known + {rel.tagName});
    TagsSnoc(added, rel);
    assert Tags(added) + ([rel.tagName] + oldKeys) == (Tags(added) + [rel.tagName]) + oldKeys;
  }

  /** `Tags` of a sequence and one more release. */
  lemma TagsSnoc(a: seq<Release>, rel: Release)
    ensures Tags(a + [rel]) == Tags(a) + [rel.tagName]
  {
    assert forall i :: 0 <= i < |a| ==> (a + [rel])[i] == a[i];
  }

  /** The merge step that adds the last release: the cache it continues with. */
  lemma MergeAdds(c: Cache, rs: seq<Release>) returns (next: Cache)
    requires WellFormed(c) && rs != []
    requires rs[|rs| - 1].tagName !in c.loaded.values && rs[|rs| - 1].tagName != ""
    requires rs[|rs| - 1].channel in c.channels
    ensures WellFormed(next) && MergeFrom(c, rs) == MergeFrom(next, rs[..|rs| - 1])
    ensures next.loaded.keys == [rs[|rs| - 1].tagName] + c.loaded.keys
    ensures next.loaded.values == c.loaded.values[rs[|rs| - 1].tagName := rs[|rs| - 1]]
    ensures next.channels.Keys == c.channels.Keys
    ensures NewReleases(rs, c.loaded.values.Keys)
         == NewReleases(rs[..|rs| - 1], c.loaded.values.Keys + {rs[|rs| - 1].tagName}) + [rs[|rs| - 1]]
  {
    var rel := rs[|rs| - 1];
    var loaded := PrependUpdate(rel.tagName, rel, c.loaded);
    next := Cache(loaded, c.channels[rel.channel := PrependUpdate(rel.tagName, rel, c.channels[rel.channel])]);
    assert rel.tagName !in c.loaded.keys;
  }

  /**
   * When every release has a bucket, each non-empty tag that was not cached
   * ends up holding the last release of the input with that tag.
   */
  lemma {:induction false} MergeLastWins(c: Cache, rs: seq<Release>, i: nat)
    requires WellFormed(c) && Bucketed(c, rs)
    requires i < |rs| && rs[i].tagName != "" && rs[i].tagName !in c.loaded.values
    requires forall j :: i < j < |rs| ==> rs[j].tagName != rs[i].tagName
    ensures rs[i].tagName in MergeFrom(c, rs).loaded.values && MergeFrom(c, rs).loaded.values[rs[i].tagName] == rs[i]
    decreases |rs|
  {
    var rel := rs[|rs| - 1];
    var rest := rs[..|rs| - 1];
    assert Bucketed(c, rest) by {
      forall j | 0 <= j < |rest| ensures rest[j].channel in c.channels {
        assert rest[j] == rs[j];
      }
    }
    if rel.tagName in c.loaded.values || rel.tagName == "" {
      assert i < |rs| - 1;
      assert rest[i] == rs[i];
      MergeLastWins(c, rest, i);
    } else {
      var loaded := PrependUpdate(rel.tagName, rel, c.loaded);
      var next := Cache(loaded, c.channels[rel.channel := PrependUpdate(rel.tagName, rel, c.channels[rel.channel])]);
      if i == |rs| - 1 {
        MergeKeepsExisting(next, rest);
      } else {
        assert rest[i] == rs[i];
        assert Bucketed(next, rest);
        MergeLastWins(next, rest, i);
      }
    }
  }

  /** A merge in which every release has a bucket keeps each bucket equal to its channel's view. */
  lemma {:induction false} MergeKeepsConsistent(c: Cache, rs: seq<Release>)
    requires Consistent(c) && Bucketed(c, rs)
    ensures Consistent(MergeFrom(c, rs)) && MergeFrom(c, rs).channels.Keys == c.channels.Keys
    decreases |rs|
  {
    assert WellFormed(c);
    if rs != [] {
      var rel := rs[|rs| - 1];
      var rest := rs[..|rs| - 1];
      assert Bucketed(c, rest) by {
        forall j | 0 <= j < |rest| ensures rest[j].channel in c.channels {
          assert rest[j] == rs[j];
        }
      }
      if rel.tagName in c.loaded.values || rel.tagName == "" {
        MergeKeepsConsistent(c, rest);
      } else {
        assert rel.channel in c.channels by {
          assert rel == rs[|rs| - 1];
        }
        var loaded := PrependUpdate(rel.tagName, rel, c.loaded);
        var next := Cache(loaded, c.channels[rel.channel := PrependUpdate(rel.tagName, rel, c.channels[rel.channel])]);
        forall ch | ch in next.channels ensures next.channels[ch] == OfChannel(next.loaded, ch) {
          if ch == rel.channel {
            OfChannelPrependSame(c.loaded, rel);
          } else {
            OfChannelPrependOther(c.loaded, rel, ch);
          }
        }
        MergeKeepsTagged(c, [rel]);
        assert MergeFrom(c, [rel]) == MergeFrom(next, []);
        assert Consistent(next);
        assert Bucketed(next, rest);
        MergeKeepsConsistent(next, rest);
      }
    }
  }

  /** Every non-empty tag of the input that was not known is among the tags the merge adds. */
  lemma {:induction false} NewReleasesComplete(rs: seq<Release>, known: set<string>, i: nat)
    requires i < |rs| && rs[i].tagName != "" && rs[i].tagName !in known
    ensures rs[i].tagName in Tags(NewReleases(rs, known))
    decreases |rs|
  {
    var rel := rs[|rs| - 1];
    var rest := rs[..|rs| - 1];
    var added := rel.tagName != "" && rel.tagName !in known;
    if i == |rs| - 1 {
      var a := NewReleases(rest, known + {rel.tagName});
      assert NewReleases(rs, known) == a + [rel];
      assert Tags(a + [rel])[|a|] == rel.tagName;
    } else if added && rs[i].tagName == rel.tagName {
      var a := NewReleases(rest, known + {rel.tagName});
      assert NewReleases(rs, known) == a + [rel];
      assert Tags(a + [rel])[|a|] == rel.tagName;
    } else {
      assert rest[i] == rs[i];
      NewReleasesComplete(rest, if added then known + {rel.tagName} else known, i);
      ghost var known' := if added then known + {rel.tagName} else known;
      assert forall x :: x in Tags(NewReleases(rest, known')) ==> x in Tags(NewReleases(rs, known)) by {
        var a := NewReleases(rest, if added then known + {rel.tagName} else known);
        assert NewReleases(rs, known) == if added then a + [rel] else a;
        assert Tags(NewReleases(rs, known)) == if added then Tags(a) + [rel.tagName] else Tags(a);
      }
    }
  }

  // ---- grouping by channel ----

  /** The channel view built from the keys `keys`, in order. */
  function View(keys: seq<string>, values: map<string, Release>, ch: Channel): (r: Bucket)
    requires forall k :: k in keys ==> k in values
  {
    OrderedMap(ChannelKeys(keys, values, ch), Filter((set k | k in keys), values, ch))
  }

  /** The entries of `values` under the keys `ks` whose release is in channel `ch`. */
  function Filter(ks: set<string>, values: map<string, Release>, ch: Channel): (r: map<string, Release>)
    requires ks <= values.Keys
  {
    map k | k in ks && values[k].channel == ch :: values[k]
  }

  /** Filtering does not look at the value of a key outside `ks`. */
  lemma FilterFrame(ks: set<string>, values: map<string, Release>, k: string, v: Release, ch: Channel)
    requires ks <= values.Keys && k !in ks
    ensures Filter(ks, values[k := v], ch) == Filter(ks, values, ch)
  {
  }

  /** Filtering one more key adds it exactly when its release is in the channel. */
  lemma FilterAdd(ks: set<string>, k: string, values: map<string, Release>, ch: Channel)
    requires ks <= values.Keys && k in values
    ensures Filter(ks + {k}, values, ch)
         == if values[k].channel == ch then Filter(ks, values, ch)[k := values[k]] else Filter(ks, values, ch)
  {
    var w := Filter(ks + {k}, values, ch);
    var e := if values[k].channel == ch then Filter(ks, values, ch)[k := values[k]] else Filter(ks, values, ch);
    assert w.Keys == e.Keys;
  }

  /** Filtering a sequence that ends with `k` ends with `k` exactly when `k` is in the channel. */
  lemma ChannelKeysSnoc(prefix: seq<string>, k: string, values: map<string, Release>, ch: Channel)
    requires k in values && forall x :: x in prefix ==> x in values
    ensures ChannelKeys(prefix + [k], values, ch)
         == ChannelKeys(prefix, values, ch) + (if values[k].channel == ch then [k] else [])
  {
    var s := prefix + [k];
    assert s[..|s| - 1] == prefix && s[|s| - 1] == k;
  }

  /** The values of the view over the keys and one more. */
  lemma ViewValuesSnoc(prefix: seq<string>, k: string, values: map<string, Release>, ch: Channel)
    requires k in values && forall x :: x in prefix ==> x in values
    ensures View(prefix + [k], values, ch).values
         == if values[k].channel == ch then View(prefix, values, ch).values[k := values[k]]
            else View(prefix, values, ch).values
  {
    var ks := (set x | x in prefix);
    assert (set x | x in prefix + [k]) == ks + {k};
    FilterAdd(ks, k, values, ch);
  }

  /** The view over the keys and one more: a new key of the channel is put last. */
  lemma ViewSnoc(prefix: seq<string>, k: string, values: map<string, Release>, ch: Channel)
    requires k in values && k !in prefix && Distinct(prefix) && forall x :: x in prefix ==> x in values
    ensures View(prefix, values, ch).Valid()
    ensures View(prefix + [k], values, ch)
         == if values[k].channel == ch then Put(View(prefix, values, ch), k, values[k]) else View(prefix, values, ch)
  {
    ChannelKeysSnoc(prefix, k, values, ch);
    ViewValuesSnoc(prefix, k, values, ch);
    assert View(prefix, values, ch).Valid();
  }

  /** One more key extends the view of its own channel by that key. */
  lemma ViewStep(keys: seq<string>, values: map<string, Release>, i: nat, ch: Channel)
    requires i < |keys| && Distinct(keys) && forall k :: k in keys ==> k in values
    ensures View(keys[..i], values, ch).Valid()
    ensures View(keys[..i + 1], values, ch)
         == if values[keys[i]].channel == ch then Put(View(keys[..i], values, ch), keys[i], values[keys[i]])
            else View(keys[..i], values, ch)
  {
    var prefix := keys[..i];
    assert keys[..i + 1] == prefix + [keys[i]];
    assert Distinct(prefix) by {
      forall a, b | 0 <= a < b < |prefix| ensures prefix[a] != prefix[b] {
        assert prefix[a] == keys[a] && prefix[b] == keys[b];
      }
    }
    assert keys[i] !in prefix by {
      forall a | 0 <= a < |prefix| ensures prefix[a] != keys[i] {
        assert prefix[a] == keys[a];
      }
    }
    ViewSnoc(prefix, keys[i], values, ch);
  }

  // ---- the manager ----

  /** A game type with a repository to fetch from. */
  predicate HasRepository(t: GameType) {
    t.repository.Some? && t.repository.value != ""
  }

  /**
   * `ReleaseManager`. `channels` are the members of `ReleaseChannel`; a
   * fetch time is in seconds, and a game type with no entry in
   * `lastFetchTime` counts as fetched at `datetime.min`. `hasEventManager`
   * says whether the manager was built with an event manager.
   */
  class ReleaseManager {
    const channels: set<Channel>
    const hasEventManager: bool
    var loadedReleases: map<GameType, Bucket>
    var releasesByChannel: map<GameType, map<Channel, Bucket>>
    var lastFetchTime: map<GameType, int>
    /** The game types a fetch was started for, in order. */
    ghost var fetches: seq<GameType>

    /** Each game type has a bucket for every channel, and each bucket is its channel's view of the releases. */
    ghost predicate Valid()
      reads this
    {
      ManagerOk(loadedReleases, releasesByChannel, channels)
    }

    constructor (channels: set<Channel>, hasEventManager: bool)
      ensures Valid()
      ensures this.channels == channels && this.hasEventManager == hasEventManager
      ensures loadedReleases == map[] && releasesByChannel == map[] && lastFetchTime == map[] && fetches == []
    {
      this.channels := channels;
      this.hasEventManager := hasEventManager;
      loadedReleases := map[];
      releasesByChannel := map[];
      lastFetchTime := map[];
      fetches := [];
    }

    /**
     * The per-type set-up of `initialize_release_manager`: every type gets an
     * empty cache with an empty bucket per channel, and the fetch time found
     * in the settings (`stored`) when there is one.
     */
    method InitializeGameTypes(types: seq<GameType>, stored: map<GameType, int>)
      requires Valid()
      modifies this
      ensures Valid()
      ensures loadedReleases == SetAll(old(loadedReleases), types, Empty())
      ensures releasesByChannel == SetAll(old(releasesByChannel), types, EmptyBuckets(channels))
      ensures lastFetchTime == SetStored(old(lastFetchTime), types, stored)
      ensures fetches == old(fetches)
    {
      AddAllOk(loadedReleases, releasesByChannel, channels, types);
      var empty := EmptyBuckets(channels);
      var loaded, byChannel, times := loadedReleases, releasesByChannel, lastFetchTime;
      for i := 0 to |types|
        invariant SetAll(loaded, types[i..], Empty()) == SetAll(old(loadedReleases), types, Empty())
        invariant SetAll(byChannel, types[i..], empty) == SetAll(old(releasesByChannel), types, empty)
        invariant SetStored(times, types[i..], stored) == SetStored(old(lastFetchTime), types, stored)
      {
        var t := types[i];
        assert types[i..][1..] == types[i + 1..];
        loaded := loaded[t := Empty()];
        byChannel := byChannel[t := empty];
        if t in stored {
          times := times[t := stored[t]];
        }
      }
      loadedReleases, releasesByChannel, lastFetchTime := loaded, byChannel, times;
    }

    /**
     * `_merge_releases(newReleases, t)`. A game type without a cache raises
     * KeyError at once, and the handler leaves everything as it was.
     */
    method MergeReleases(newReleases: seq<Release>, t: GameType)
      requires Shaped(loadedReleases, releasesByChannel)
      modifies this
      ensures t !in old(loadedReleases) ==>
                loadedReleases == old(loadedReleases) && releasesByChannel == old(releasesByChannel)
      ensures t in old(loadedReleases) ==>
                var c := MergeFrom(Cache(old(loadedReleases)[t], old(releasesByChannel)[t]), newReleases);
                loadedReleases == old(loadedReleases)[t := c.loaded] && releasesByChannel == old(releasesByChannel)[t := c.channels]
      ensures lastFetchTime == old(lastFetchTime) && fetches == old(fetches)
    {
      if t !in loadedReleases {
        return;
      }
      var merged := MergeInto(Cache(loadedReleases[t], releasesByChannel[t]), newReleases);
      loadedReleases := loadedReleases[t := merged.loaded];
      releasesByChannel := releasesByChannel[t := merged.channels];
    }

    /** `has_releases_cached`: the game type has a non-empty cache. */
    function HasReleasesCached(t: GameType): (r: bool)
      requires Valid()
      reads this
      ensures r <==> t in loadedReleases && exists k :: k in loadedReleases[t].values
    {
      assert t in loadedReleases && |loadedReleases[t].keys| > 0 ==> loadedReleases[t].keys[0] in loadedReleases[t].values;
      t in loadedReleases && |loadedReleases[t].keys| > 0
    }

    /** The last fetch is more than three hours before `now` (or there was none). */
    function FetchIsStale(t: GameType, now: int): (r: bool)
      reads this
      ensures t !in lastFetchTime ==> r
      ensures t in lastFetchTime ==> (r <==> now - lastFetchTime[t] > StaleAfter)
    {
      t !in lastFetchTime || lastFetchTime[t] < now - StaleAfter
    }

    /** The requested channel has a non-empty bucket. */
    function ChannelCached(t: GameType, channel: Option<Channel>): (r: bool)
      reads this
      ensures r <==> channel.Some? && t in releasesByChannel && channel.value in releasesByChannel[t]
                     && releasesByChannel[t][channel.value].keys != []
    {
      var game := if t in releasesByChannel then releasesByChannel[t] else map[];
      channel.Some? && channel.value in game && game[channel.value].keys != []
    }

    /** The fetch decision of `get_releases`, checked in its order. */
    function NeedsFetch(t: GameType, channel: Option<Channel>, forceRefresh: bool, now: int): (r: bool)
      requires Valid()
      reads this
      ensures r <==> forceRefresh || !HasReleasesCached(t) || FetchIsStale(t, now) || !ChannelCached(t, channel)
    {
      if forceRefresh then true
      else if !HasReleasesCached(t) then true
      else if FetchIsStale(t, now) then true
      else !ChannelCached(t, channel)
    }

    /**
     * Whether `fetch_releases` gets as far as fetching: with no channel, the
     * started event reads `channel.value` and raises first, unless there is
     * no event manager to emit it to.
     */
    predicate FetchStarts(channel: Option<Channel>) {
      channel.Some? || !hasEventManager
    }

    /**
     * `fetch_releases`: `apiReleases` is what the GitHub API yields (`[]`
     * when the request fails). A game type without a repository raises and
     * nothing changes; otherwise the releases are merged in and the fetch
     * time becomes `now`. With no channel the call always raises: before the
     * fetch when there is an event manager, after the fetch time is stored
     * (at the final log line) when there is none.
     */
    method FetchReleases(t: GameType, channel: Option<Channel>, now: int, apiReleases: seq<Release>) returns (ok: bool)
      requires Valid() && forall i :: 0 <= i < |apiReleases| ==> apiReleases[i].channel in channels
      modifies this
      ensures Valid()
      ensures ok <==> HasRepository(t) && channel.Some?
      ensures fetches == old(fetches) + (if FetchStarts(channel) then [t] else [])
      ensures !(FetchStarts(channel) && HasRepository(t)) ==>
                (loadedReleases == old(loadedReleases) && releasesByChannel == old(releasesByChannel)
                 && lastFetchTime == old(lastFetchTime))
      ensures FetchStarts(channel) && HasRepository(t) ==> lastFetchTime == old(lastFetchTime)[t := now]
      ensures FetchStarts(channel) && HasRepository(t) && t !in old(loadedReleases) ==>
                loadedReleases == old(loadedReleases) && releasesByChannel == old(releasesByChannel)
      ensures FetchStarts(channel) && HasRepository(t) && t in old(loadedReleases) ==>
                var c := MergeFrom(Cache(old(loadedReleases)[t], old(releasesByChannel)[t]), apiReleases);
                loadedReleases == old(loadedReleases)[t := c.loaded] && releasesByChannel == old(releasesByChannel)[t := c.channels]
    {
      if !FetchStarts(channel) {
        return false;
      }
      fetches := fetches + [t];
      if !HasRepository(t) {
        return false;
      }
      OkShaped(loadedReleases, releasesByChannel, channels);
      MergeReleases(apiReleases, t);
      if t in old(loadedReleases) {
        MergePreservesOk(old(loadedReleases), old(releasesByChannel), channels, t, apiReleases);
      }
      lastFetchTime := lastFetchTime[t := now];
      return channel.Some?;
    }

    /** The releases of the bucket a listing of `t` reads: `channel`'s, or the ALL channel's when none is given. */
    function Listing(t: GameType, channel: Option<Channel>, allChannel: Channel): (r: seq<Release>)
      requires Valid()
      reads this
      ensures t in releasesByChannel && (if channel.Some? then channel.value else allChannel) in releasesByChannel[t] ==>
                r == releasesByChannel[t][if channel.Some? then channel.value else allChannel].Values()
      ensures !(t in releasesByChannel && (if channel.Some? then channel.value else allChannel) in releasesByChannel[t]) ==>
                r == []
    {
      var key := if channel.Some? then channel.value else allChannel;
      if t in releasesByChannel && key in releasesByChannel[t] then
        assert Consistent(Cache(loadedReleases[t], releasesByChannel[t]));
        releasesByChannel[t][key].Values()
      else []
    }

    /**
     * The fetch step of `get_releases`: fetches when `NeedsFetch` says so.
     * `go` is false exactly when the fetch ran and failed and nothing is
     * cached, where `get_releases` returns `[]` at once.
     */
    method RefreshIfNeeded(t: GameType, channel: Option<Channel>, forceRefresh: bool, now: int,
                           apiReleases: seq<Release>) returns (go: bool)
      requires Valid() && forall i :: 0 <= i < |apiReleases| ==> apiReleases[i].channel in channels
      modifies this
      ensures Valid()
      ensures fetches == old(fetches) + (if old(NeedsFetch(t, channel, forceRefresh, now)) && FetchStarts(channel) then [t] else [])
      ensures !old(NeedsFetch(t, channel, forceRefresh, now)) ==> go && unchanged(this)
      ensures old(NeedsFetch(t, channel, forceRefresh, now)) && FetchStarts(channel) && HasRepository(t) ==>
                lastFetchTime == old(lastFetchTime)[t := now]
      ensures old(NeedsFetch(t, channel, forceRefresh, now)) && !(FetchStarts(channel) && HasRepository(t)) ==>
                (loadedReleases == old(loadedReleases) && releasesByChannel == old(releasesByChannel)
                 && lastFetchTime == old(lastFetchTime))
      ensures old(NeedsFetch(t, channel, forceRefresh, now)) && FetchStarts(channel) && HasRepository(t)
              && t !in old(loadedReleases) ==>
                loadedReleases == old(loadedReleases) && releasesByChannel == old(releasesByChannel)
      ensures old(NeedsFetch(t, channel, forceRefresh, now)) && FetchStarts(channel) && HasRepository(t)
              && t in old(loadedReleases) ==>
                var c := MergeFrom(Cache(old(loadedReleases)[t], old(releasesByChannel)[t]), apiReleases);
                loadedReleases == old(loadedReleases)[t := c.loaded] && releasesByChannel == old(releasesByChannel)[t := c.channels]
      ensures go <==> !old(NeedsFetch(t, channel, forceRefresh, now)) || (HasRepository(t) && channel.Some?)
                      || HasReleasesCached(t)
    {
      go := true;
      if NeedsFetch(t, channel, forceRefresh, now) {
        var ok := FetchReleases(t, channel, now, apiReleases);
        if !ok {
          go := HasReleasesCached(t);
        }
      }
    }

    /**
     * `get_releases`: fetches when `NeedsFetch` says so, then lists the
     * selected bucket, cut to `limit` when that is positive. `now` is the
     * clock and `apiReleases` what the API would yield.
     */
    method GetReleases(gameType: Option<GameType>, channel: Option<Channel>, limit: Option<int>, forceRefresh: bool,
                       now: int, apiReleases: seq<Release>, allChannel: Channel) returns (r: seq<Release>)
      requires Valid() && forall i :: 0 <= i < |apiReleases| ==> apiReleases[i].channel in channels
      modifies this
      ensures Valid()
      ensures gameType.None? ==> r == [] && unchanged(this)
      ensures gameType.Some? ==>
                fetches == old(fetches) + (if old(NeedsFetch(gameType.value, channel, forceRefresh, now)) && FetchStarts(channel)
                                           then [gameType.value] else [])
      ensures gameType.Some? && !old(NeedsFetch(gameType.value, channel, forceRefresh, now)) ==> unchanged(this)
      ensures gameType.Some? && old(NeedsFetch(gameType.value, channel, forceRefresh, now)) && FetchStarts(channel)
              && HasRepository(gameType.value) ==>
                lastFetchTime == old(lastFetchTime)[gameType.value := now]
      ensures gameType.Some? && old(NeedsFetch(gameType.value, channel, forceRefresh, now))
              && !(FetchStarts(channel) && HasRepository(gameType.value)) ==>
                (loadedReleases == old(loadedReleases) && releasesByChannel == old(releasesByChannel)
                 && lastFetchTime == old(lastFetchTime))
      ensures gameType.Some? && old(NeedsFetch(gameType.value, channel, forceRefresh, now)) && FetchStarts(channel)
              && HasRepository(gameType.value) && gameType.value !in old(loadedReleases) ==>
                loadedReleases == old(loadedReleases) && releasesByChannel == old(releasesByChannel)
      ensures gameType.Some? && old(NeedsFetch(gameType.value, channel, forceRefresh, now)) && FetchStarts(channel)
              && HasRepository(gameType.value) && gameType.value in old(loadedReleases) ==>
                var t := gameType.value;
                var c := MergeFrom(Cache(old(loadedReleases)[t], old(releasesByChannel)[t]), apiReleases);
                loadedReleases == old(loadedReleases)[t := c.loaded] && releasesByChannel == old(releasesByChannel)[t := c.channels]
      ensures gameType.Some? ==> r == Limit(Listing(gameType.value, channel, allChannel), limit)
    {
      if gameType.None? {
        return [];
      }
      var t := gameType.value;
      var go := RefreshIfNeeded(t, channel, forceRefresh, now, apiReleases);
      if !go {
        EmptyListing(t, channel, allChannel);
        return [];
      }
      // an empty `releases_by_channel` entry holds no bucket, so `Listing` is `[]` for it
      r := Limit(Listing(t, channel, allChannel), limit);
    }

    /** With no releases cached for `t`, every listing of `t` is empty. */
    lemma EmptyListing(t: GameType, channel: Option<Channel>, allChannel: Channel)
      requires Valid() && !HasReleasesCached(t)
      ensures Listing(t, channel, allChannel) == []
    {
      var key := if channel.Some? then channel.value else allChannel;
      if t in releasesByChannel && key in releasesByChannel[t] {
        var c := Cache(loadedReleases[t], releasesByChannel[t]);
        assert Consistent(c);
        assert loadedReleases[t].keys == [];
        assert releasesByChannel[t][key] == OfChannel(loadedReleases[t], key);
      }
    }

    /** `get_all_releases`: the game type's cache, or `{}`. */
    function GetAllReleases(gameType: Option<GameType>): (r: Bucket)
      reads this
      ensures gameType.Some? && gameType.value in loadedReleases ==> r == loadedReleases[gameType.value]
      ensures !(gameType.Some? && gameType.value in loadedReleases) ==> r == Empty()
    {
      if gameType.Some? && gameType.value in loadedReleases then loadedReleases[gameType.value] else Empty()
    }

    /**
     * `_group_releases_by_channel`: a bucket for every channel, each holding
     * that channel's releases in the input's order.
     */
    method GroupReleasesByChannel(releases: Bucket) returns (grouped: map<Channel, Bucket>)
      requires releases.Valid()
      requires forall k :: k in releases.values ==> releases.values[k].channel in channels
      ensures grouped.Keys == channels
      ensures forall ch :: ch in grouped ==> grouped[ch] == OfChannel(releases, ch)
    {
      grouped := map ch | ch in channels :: Empty();
      var keys := releases.keys;
      GroupStart(grouped, keys, releases.values);
      for i := 0 to |keys|
        invariant grouped.Keys == channels
        invariant forall ch :: ch in grouped ==> grouped[ch] == View(keys[..i], releases.values, ch)
      {
        var tag := keys[i];
        var release := releases.values[tag];
        GroupStep(grouped, keys, releases.values, i);
        grouped := grouped[release.channel := Put(grouped[release.channel], tag, release)];
      }
      GroupEnd(grouped, releases);
    }
  }

  lemma GroupStart(grouped: map<Channel, Bucket>, keys: seq<string>, values: map<string, Release>)
    requires forall ch :: ch in grouped ==> grouped[ch] == Empty()
    ensures forall ch :: ch in grouped ==> grouped[ch] == View(keys[..0], values, ch)
  {
    forall ch | ch in grouped ensures grouped[ch] == View(keys[..0], values, ch) {
      assert View(keys[..0], values, ch).values == map[];
    }
  }

  /** One step of the grouping loop: the key goes into its own channel's bucket. */
  lemma GroupStep(grouped: map<Channel, Bucket>, keys: seq<string>, values: map<string, Release>, i: nat)
    requires i < |keys| && Distinct(keys) && forall k :: k in keys ==> k in values
    requires values[keys[i]].channel in grouped
    requires forall ch :: ch in grouped ==> grouped[ch] == View(keys[..i], values, ch)
    ensures grouped[values[keys[i]].channel].Valid()
    ensures var ch0 := values[keys[i]].channel;
      var next := grouped[ch0 := Put(grouped[ch0], keys[i], values[keys[i]])];
      forall ch :: ch in next ==> next[ch] == View(keys[..i + 1], values, ch)
  {
    ViewStep(keys, values, i, values[keys[i]].channel);
    forall ch | ch in grouped ensures grouped[ch] == View(keys[..i], values, ch) && View(keys[..i + 1], values, ch)
         == if values[keys[i]].channel == ch then Put(View(keys[..i], values, ch), keys[i], values[keys[i]])
            else View(keys[..i], values, ch) {
      ViewStep(keys, values, i, ch);
    }
  }

  lemma GroupEnd(grouped: map<Channel, Bucket>, releases: Bucket)
    requires releases.Valid()
    requires forall ch :: ch in grouped ==> grouped[ch] == View(releases.keys[..|releases.keys|], releases.values, ch)
    ensures forall ch :: ch in grouped ==> grouped[ch] == OfChannel(releases, ch)
  {
    assert releases.keys[..|releases.keys|] == releases.keys;
    forall ch | ch in grouped ensures grouped[ch] == OfChannel(releases, ch) {
      assert View(releases.keys, releases.values, ch).values == OfChannel(releases, ch).values;
    }
  }

  /**
   * The loop of `_merge_releases` over one game type's cache: the releases
   * from the last to the first, ending early at a missing channel bucket.
   */
  method MergeInto(c: Cache, newReleases: seq<Release>) returns (r: Cache)
    requires WellFormed(c)
    ensures r == MergeFrom(c, newReleases)
  {
    ghost var target := MergeFrom(c, newReleases);
    var loaded, buckets := c.loaded, c.channels;
    var i := |newReleases|;
    var aborted := false;
    assert newReleases[..i] == newReleases;
    while i > 0 && !aborted
      invariant 0 <= i <= |newReleases|
      invariant WellFormed(Cache(loaded, buckets))
      invariant !aborted ==> MergeFrom(Cache(loaded, buckets), newReleases[..i]) == target
      invariant aborted ==> Cache(loaded, buckets) == target
      decreases i, !aborted
    {
      var rel := newReleases[i - 1];
      MergeUnfold(Cache(loaded, buckets), newReleases, i);
      if rel.tagName !in loaded.values && rel.tagName != "" {
        loaded := PrependUpdate(rel.tagName, rel, loaded);
        if rel.channel in buckets {
          buckets := buckets[rel.channel := PrependUpdate(rel.tagName, rel, buckets[rel.channel])];
        } else {
          // KeyError: the handler ends the merge
          aborted := true;
        }
      }
      if !aborted {
        i := i - 1;
      }
    }
    if !aborted {
      assert newReleases[..i] == [];
    }
    return Cache(loaded, buckets);
  }

  /** One step of the merge loop, taking the `i`-th release from the end. */
  lemma MergeUnfold(c: Cache, rs: seq<Release>, i: nat)
    requires WellFormed(c) && 0 < i <= |rs|
    ensures var rel := rs[i - 1];
      MergeFrom(c, rs[..i])
      == if rel.tagName in c.loaded.values || rel.tagName == "" then MergeFrom(c, rs[..i - 1])
         else if rel.channel !in c.channels then Cache(PrependUpdate(rel.tagName, rel, c.loaded), c.channels)
         else MergeFrom(Cache(PrependUpdate(rel.tagName, rel, c.loaded),
                              c.channels[rel.channel := PrependUpdate(rel.tagName, rel, c.channels[rel.channel])]), rs[..i - 1])
  {
    assert rs[..i][..i - 1] == rs[..i - 1] && rs[..i][i - 1] == rs[i - 1];
  }

  /** Every cached game type has a well-formed cache. */
  ghost predicate Shaped(loaded: map<GameType, Bucket>, byChannel: map<GameType, map<Channel, Bucket>>) {
    forall t :: t in loaded ==> t in byChannel && WellFormed(Cache(loaded[t], byChannel[t]))
  }

  lemma OkShaped(loaded: map<GameType, Bucket>, byChannel: map<GameType, map<Channel, Bucket>>, channels: set<Channel>)
    requires ManagerOk(loaded, byChannel, channels)
    ensures Shaped(loaded, byChannel)
  {
    forall t | t in loaded ensures t in byChannel && WellFormed(Cache(loaded[t], byChannel[t])) {
      assert CacheOk(Cache(loaded[t], byChannel[t]), channels);
    }
  }

  /** An empty cache with an empty bucket per channel keeps the manager's invariant. */
  lemma AddEmptyOk(loaded: map<GameType, Bucket>, byChannel: map<GameType, map<Channel, Bucket>>,
                   channels: set<Channel>, t: GameType)
    requires ManagerOk(loaded, byChannel, channels)
    ensures ManagerOk(loaded[t := Empty()], byChannel[t := EmptyBuckets(channels)], channels)
  {
    var empty := EmptyBuckets(channels);
    assert CacheOk(Cache(Empty(), empty), channels) by {
      forall ch | ch in empty ensures empty[ch] == OfChannel(Empty(), ch) {
        assert OfChannel(Empty(), ch).values == map[];
      }
    }
    ReplaceCacheOk(loaded, byChannel, channels, t, Cache(Empty(), empty));
  }

  /** A merge whose releases all have buckets keeps the manager's invariant. */
  lemma MergePreservesOk(loaded: map<GameType, Bucket>, byChannel: map<GameType, map<Channel, Bucket>>,
                         channels: set<Channel>, t: GameType, rs: seq<Release>)
    requires ManagerOk(loaded, byChannel, channels) && t in loaded
    requires forall j :: 0 <= j < |rs| ==> rs[j].channel in channels
    ensures WellFormed(Cache(loaded[t], byChannel[t]))
    ensures var c := MergeFrom(Cache(loaded[t], byChannel[t]), rs);
      ManagerOk(loaded[t := c.loaded], byChannel[t := c.channels], channels)
  {
    var start := Cache(loaded[t], byChannel[t]);
    assert CacheOk(start, channels);
    assert Bucketed(start, rs);
    MergeKeepsConsistent(start, rs);
    ReplaceCacheOk(loaded, byChannel, channels, t, MergeFrom(start, rs));
  }

  /** Replacing one game type's cache by a consistent cache keeps the manager's invariant. */
  lemma ReplaceCacheOk(loaded: map<GameType, Bucket>, byChannel: map<GameType, map<Channel, Bucket>>,
                       channels: set<Channel>, t: GameType, c: Cache)
    requires ManagerOk(loaded, byChannel, channels) && CacheOk(c, channels)
    ensures ManagerOk(loaded[t := c.loaded], byChannel[t := c.channels], channels)
  {
    var l, b := loaded[t := c.loaded], byChannel[t := c.channels];
    forall u | u in l ensures u in b && CacheOk(Cache(l[u], b[u]), channels) {
      if u == t {
        assert Cache(l[u], b[u]) == c;
      } else {
        assert Cache(l[u], b[u]) == Cache(loaded[u], byChannel[u]);
      }
    }
  }

  /** `releases[:limit]` when `limit` is a positive number, else all of `releases`. */
  function Limit(releases: seq<Release>, limit: Option<int>): (r: seq<Release>)
    ensures limit.Some? && limit.value > 0 ==> |r| == (if limit.value < |releases| then limit.value else |releases|)
    ensures !(limit.Some? && limit.value > 0) ==> r == releases
    ensures r <= releases
  {
    if limit.Some? && limit.value > 0 && limit.value < |releases| then releases[..limit.value] else releases
  }

  /** An empty bucket for every channel. */
  function EmptyBuckets(channels: set<Channel>): (m: map<Channel, Bucket>)
    ensures m.Keys == channels && forall ch :: ch in m ==> m[ch] == Empty()
  {
    map ch | ch in channels :: Empty()
  }

  /** `m` with every key of `ks` set to `v`, front to back. */
  function SetAll<K, V>(m: map<K, V>, ks: seq<K>, v: V): (r: map<K, V>)
    decreases |ks|
  {
    if ks == [] then m else SetAll(m[ks[0] := v], ks[1..], v)
  }

  /** `m` with every key of `ks` that `stored` holds set to its stored value, front to back. */
  function SetStored<K, V>(m: map<K, V>, ks: seq<K>, stored: map<K, V>): (r: map<K, V>)
    decreases |ks|
  {
    if ks == [] then m
    else SetStored(if ks[0] in stored then m[ks[0] := stored[ks[0]]] else m, ks[1..], stored)
  }

  /** After `SetAll`, the listed keys hold `v` and every other key is as before. */
  lemma {:induction false} SetAllContents<K, V>(m: map<K, V>, ks: seq<K>, v: V)
    ensures SetAll(m, ks, v).Keys == m.Keys + set k | k in ks
    ensures forall k :: k in ks ==> SetAll(m, ks, v)[k] == v
    ensures forall k :: k in m && k !in ks ==> SetAll(m, ks, v)[k] == m[k]
    decreases |ks|
  {
    if ks != [] {
      SetAllContents(m[ks[0] := v], ks[1..], v);
      assert forall k :: k in ks <==> k == ks[0] || k in ks[1..];
    }
  }

  /** After `SetStored`, a listed key that `stored` holds has its stored value; every other key is as before. */
  lemma {:induction false} SetStoredContents<K, V>(m: map<K, V>, ks: seq<K>, stored: map<K, V>)
    ensures SetStored(m, ks, stored).Keys == m.Keys + set k | k in ks && k in stored
    ensures forall k :: k in ks && k in stored ==> SetStored(m, ks, stored)[k] == stored[k]
    ensures forall k :: k in m && !(k in ks && k in stored) ==> SetStored(m, ks, stored)[k] == m[k]
    decreases |ks|
  {
    if ks != [] {
      var m' := if ks[0] in stored then m[ks[0] := stored[ks[0]]] else m;
      SetStoredContents(m', ks[1..], stored);
      assert forall k :: k in ks <==> k == ks[0] || k in ks[1..];
    }
  }

  /** Adding empty caches for any list of game types keeps the manager's invariant. */
  lemma {:induction false} AddAllOk(loaded: map<GameType, Bucket>, byChannel: map<GameType, map<Channel, Bucket>>,
                                   channels: set<Channel>, types: seq<GameType>)
    requires ManagerOk(loaded, byChannel, channels)
    ensures ManagerOk(SetAll(loaded, types, Empty()), SetAll(byChannel, types, EmptyBuckets(channels)), channels)
    decreases |types|
  {
    if types != [] {
      AddEmptyOk(loaded, byChannel, channels, types[0]);
      AddAllOk(loaded[types[0] := Empty()], byChannel[types[0] := EmptyBuckets(channels)], channels, types[1..]);
    }
  }
}
