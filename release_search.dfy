/**
 * `ReleaseSearchIndex`: a list of releases searched by tag. A query is
 * matched case-insensitively as a substring of the tag; an empty or blank
 * query returns everything, and the tag list is the sorted set of the
 * non-empty tags.
 */
module ReleaseSearch {
  import opened Text
  import opened Releases

  /** `not query or not query.strip()`. */
  predicate Blank(query: string) {
    Strip(query) == []
  }

  /** The release's tag is non-empty and its lower-cased form contains `normal`. */
  predicate Matches(rel: Release, normal: string) {
    rel.tagName != [] && Contains(Lower(rel.tagName), normal)
  }

  /** The releases of `rs` that match `normal`, in their order. */
  function Filter(rs: seq<Release>, normal: string): (r: seq<Release>)
    decreases |rs|
  {
    if rs == [] then []
    else Filter(rs[..|rs| - 1], normal) + (if Matches(rs[|rs| - 1], normal) then [rs[|rs| - 1]] else [])
  }

  /** Strictly increasing indices below `n`. */
  predicate Increasing(idx: seq<nat>, n: nat) {
    (forall k :: 0 <= k < |idx| ==> idx[k] < n) && forall k, l :: 0 <= k < l < |idx| ==> idx[k] < idx[l]
  }

  /**
   * The positions `Filter` keeps: exactly the matching ones, increasing, so
   * the result is the subsequence of `rs` made of its matches.
   */
  function Picked(rs: seq<Release>, normal: string): (idx: seq<nat>)
    ensures Increasing(idx, |rs|)
    ensures |idx| == |Filter(rs, normal)|
    ensures forall k :: 0 <= k < |idx| ==> Filter(rs, normal)[k] == rs[idx[k]]
    ensures forall i :: 0 <= i < |rs| ==> (i in idx <==> Matches(rs[i], normal))
    decreases |rs|
  {
    if rs == [] then []
    else
      var n := |rs| - 1;
      var front := Picked(rs[..n], normal);
      assert forall i :: 0 <= i < n ==> rs[..n][i] == rs[i];
      if Matches(rs[n], normal) then front + [n] else front
  }

  /** Searching for a query is searching for its stripped, lower-cased form. */
  function Normal(query: string): (q: string)
    ensures |q| <= |query|
  {
    Lower(Strip(query))
  }

  /** What `search` returns on the index `rs`. */
  function SearchResult(rs: seq<Release>, query: string): (r: seq<Release>)
    ensures Blank(query) ==> r == rs
    ensures !Blank(query) ==> forall x :: x in r <==> x in rs && Matches(x, Normal(query))
  {
    if Blank(query) then rs
    else
      FilterMembersAll(rs, Normal(query));
      Filter(rs, Normal(query))
  }

  class ReleaseSearchIndex {
    var releases: seq<Release>

    constructor ()
      ensures releases == []
    {
      releases := [];
    }

    /** `add_releases`: the index becomes a copy of `rs`. */
    method AddReleases(rs: seq<Release>)
      modifies this
      ensures releases == rs
    {
      releases := rs;
    }

    /**
     * `search`: a blank query gives every release; otherwise the releases
     * whose tag contains the normalised query, in index order.
     */
    method Search(query: string) returns (r: seq<Release>)
      ensures r == SearchResult(releases, query)
    {
      if Blank(query) {
        return releases;
      }
      var normal := Normal(query);
      r := [];
      for i := 0 to |releases|
        invariant r == Filter(releases[..i], normal)
      {
        var release := releases[i];
        assert releases[..i + 1][..i] == releases[..i];
        if release.tagName != [] {
          if Contains(Lower(release.tagName), normal) {
            r := r + [release];
          }
        }
      }
      assert releases[..|releases|] == releases;
    }

    /** `get_all_tags`: the distinct non-empty tags, sorted. */
    method GetAllTags() returns (tags: seq<string>)
      ensures StrictlySorted(tags)
      ensures forall t :: t in tags <==> t != [] && exists i :: 0 <= i < |releases| && releases[i].tagName == t
    {
      var seen: set<string> := {};
      for i := 0 to |releases|
        invariant forall t :: t in seen <==> t != [] && exists j :: 0 <= j < i && releases[j].tagName == t
      {
        if releases[i].tagName != [] {
          seen := seen + {releases[i].tagName};
        }
      }
      tags := SortedTags(seen);
    }
  }

  /** `sorted(list(tags))`: the set's elements in increasing order. */
  method SortedTags(tags: set<string>) returns (s: seq<string>)
    ensures StrictlySorted(s) && (forall t :: t in s <==> t in tags) && |s| == |tags|
  {
    s := [];
    var rest := tags;
    while rest != {}
      invariant StrictlySorted(s) && (forall t :: t in s <==> t in tags && t !in rest)
      invariant rest <= tags && |s| + |rest| == |tags|
      decreases |rest|
    {
      var t :| t in rest;
      s := Insert(s, t);
      rest := rest - {t};
    }
  }

  /** `t` placed into the sorted sequence `s`, which does not hold it yet. */
  function Insert(s: seq<string>, t: string): (r: seq<string>)
    requires StrictlySorted(s) && t !in s
    ensures StrictlySorted(r) && |r| == |s| + 1
    ensures forall u :: u in r <==> u in s || u == t
    decreases |s|
  {
    if s == [] then [t]
    else if StrLess(t, s[0]) then
      InsertFront(s, t);
      [t] + s
    else
      assert s[0] != t;
      StrLessTotal(t, s[0]);
      var rest := Insert(s[1..], t);
      InsertBehind(s, t, rest);
      [s[0]] + rest
  }

  lemma InsertFront(s: seq<string>, t: string)
    requires StrictlySorted(s) && s != [] && StrLess(t, s[0])
    ensures StrictlySorted([t] + s)
  {
    forall j | 0 < j < |s| ensures StrLess(t, s[j]) {
      StrLessTransitive(t, s[0], s[j]);
    }
  }

  lemma InsertBehind(s: seq<string>, t: string, rest: seq<string>)
    requires StrictlySorted(s) && s != [] && StrLess(s[0], t)
    requires StrictlySorted(rest) && forall u :: u in rest <==> u in s[1..] || u == t
    ensures StrictlySorted([s[0]] + rest)
  {
    forall j | 0 <= j < |rest| ensures StrLess(s[0], rest[j]) {
      if rest[j] != t {
        assert rest[j] in rest;
        assert rest[j] in s[1..];
        var k :| 0 <= k < |s[1..]| && s[1..][k] == rest[j];
        assert s[k + 1] == rest[j];
      }
    }
  }

  // ---- properties of the search ----

  /** The results are the index's matching releases and nothing else. */
  lemma FilterMembers(rs: seq<Release>, normal: string, x: Release)
    ensures x in Filter(rs, normal) <==> x in rs && Matches(x, normal)
  {
    var idx := Picked(rs, normal);
    var r := Filter(rs, normal);
    if x in r {
      var k :| 0 <= k < |r| && r[k] == x;
      assert rs[idx[k]] == x;
    }
    if x in rs && Matches(x, normal) {
      var i :| 0 <= i < |rs| && rs[i] == x;
      assert i in idx;
      var k :| 0 <= k < |idx| && idx[k] == i;
      assert r[k] == x;
    }
  }

  /** `FilterMembers` for every release at once. */
  lemma FilterMembersAll(rs: seq<Release>, normal: string)
    ensures forall x :: x in Filter(rs, normal) <==> x in rs && Matches(x, normal)
  {
    forall x ensures x in Filter(rs, normal) <==> x in rs && Matches(x, normal) {
      FilterMembers(rs, normal, x);
    }
  }

  /** A release with an empty tag is never a result of a non-blank search. */
  lemma EmptyTagNeverFound(rs: seq<Release>, normal: string, x: Release)
    requires x.tagName == []
    ensures x !in Filter(rs, normal)
  {
    FilterMembers(rs, normal, x);
  }

  /** Case only matters through `Lower`, and whitespace is never a letter. */
  lemma SpaceIgnoresCase(c: char, d: char)
    requires LowerChar(c) == LowerChar(d)
    ensures IsSpace(c) <==> IsSpace(d)
  {
  }

  lemma {:induction false} LStripIgnoresCase(a: string, b: string)
    requires SameIgnoringCase(a, b)
    ensures SameIgnoringCase(LStrip(a), LStrip(b))
    decreases |a|
  {
    if |a| > 0 {
      SpaceIgnoresCase(a[0], b[0]);
      if IsSpace(a[0]) {
        LStripIgnoresCase(a[1..], b[1..]);
      }
    }
  }

  lemma {:induction false} RStripIgnoresCase(a: string, b: string)
    requires SameIgnoringCase(a, b)
    ensures SameIgnoringCase(RStrip(a), RStrip(b))
    decreases |a|
  {
    if |a| > 0 {
      SpaceIgnoresCase(a[|a| - 1], b[|b| - 1]);
      if IsSpace(a[|a| - 1]) {
        RStripIgnoresCase(a[..|a| - 1], b[..|b| - 1]);
      }
    }
  }

  /** Queries that differ only in letter case are equally blank and have the same normal form. */
  lemma NormalIgnoresCase(q1: string, q2: string)
    requires SameIgnoringCase(q1, q2)
    ensures Blank(q1) <==> Blank(q2)
    ensures Normal(q1) == Normal(q2)
  {
    LStripIgnoresCase(q1, q2);
    RStripIgnoresCase(LStrip(q1), LStrip(q2));
    SameIgnoringCaseLower(Strip(q1), Strip(q2));
  }

  /** A whitespace-only query is blank; a query with any other character is not. */
  lemma BlankIff(query: string)
    ensures Blank(query) <==> forall i :: 0 <= i < |query| ==> IsSpace(query[i])
  {
    StripEmptyIff(query);
  }

  /** `search` is case-insensitive: queries that differ only in letter case give the same results. */
  lemma SearchIgnoresCase(rs: seq<Release>, q1: string, q2: string)
    requires SameIgnoringCase(q1, q2)
    ensures SearchResult(rs, q1) == SearchResult(rs, q2)
  {
    NormalIgnoresCase(q1, q2);
  }
}
