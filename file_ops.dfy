/**
 * The decisions `FileOperations` makes over a directory tree: whether a
 * directory looks like a game root, which directory of an extracted
 * archive is the game's root, and what removing or listing a missing path
 * gives. The filesystem is a tree of entries, each directory's children in
 * listing order.
 */
module FileOps {
  import opened Wrappers
  import opened Text

  datatype Entry = File(name: string) | Dir(name: string, children: seq<Entry>)

  /** The names that mark a game root: executables and the usual data directories. */
  function Indicators(): (r: seq<string>)
    ensures |r| == 11
  {
    ["cataclysm-tiles", "cataclysm-tiles.exe", "cataclysm-launcher", "cataclysm", "cataclysm.exe",
     "cataclysm-bn-tiles.exe", "data", "gfx", "config", "doc", "lang"]
  }

  /** `[indicator.lower() for indicator in game_indicators]`, as a set. */
  function IndicatorNames(): set<string> {
    set k | 0 <= k < |Indicators()| :: Lower(Indicators()[k])
  }

  /** `item.name.lower() in [indicator.lower() for indicator in game_indicators]`. */
  predicate IsIndicator(name: string) {
    Lower(name) in IndicatorNames()
  }

  /** For each of `items`, whether its name is one of the indicators: the test the source's loop makes. */
  function Marks(items: seq<Entry>): (r: seq<bool>) {
    seq(|items|, i requires 0 <= i < |items| => IsIndicator(items[i].name))
  }

  /** How many of `marks` are set. */
  function CountTrue(marks: seq<bool>): (c: nat)
    ensures c <= |marks|
    decreases |marks|
  {
    if marks == [] then 0
    else CountTrue(marks[..|marks| - 1]) + if marks[|marks| - 1] then 1 else 0
  }

  /** How many of `items` have an indicator name. */
  function IndicatorCount(items: seq<Entry>): (c: nat)
    ensures c <= |items|
  {
    CountTrue(Marks(items))
  }

  /** `_is_game_root_directory`: a directory with at least two indicator entries. */
  predicate IsGameRoot(e: Entry)
    ensures IsGameRoot(e) ==> e.Dir? && |e.children| >= 2
  {
    e.Dir? && IndicatorCount(e.children) >= 2
  }

  /** The count is positive exactly when some mark is set. */
  lemma {:induction false} CountTrueOne(marks: seq<bool>)
    ensures CountTrue(marks) >= 1 <==> exists i :: 0 <= i < |marks| && marks[i]
    decreases |marks|
  {
    if marks != [] {
      var m := |marks| - 1;
      CountTrueOne(marks[..m]);
      assert forall i :: 0 <= i < m ==> marks[..m][i] == marks[i];
    }
  }

  /** The count reaches two exactly when two different marks are set. */
  lemma {:induction false} CountTrueTwo(marks: seq<bool>)
    ensures CountTrue(marks) >= 2 <==> exists i, j :: 0 <= i < j < |marks| && marks[i] && marks[j]
    decreases |marks|
  {
    if marks != [] {
      var m := |marks| - 1;
      var front := marks[..m];
      CountTrueTwo(front);
      CountTrueOne(front);
      assert forall i :: 0 <= i < m ==> front[i] == marks[i];
      if exists i, j :: 0 <= i < j < |marks| && marks[i] && marks[j] {
        var i, j :| 0 <= i < j < |marks| && marks[i] && marks[j];
        if j < m {
          assert front[i] && front[j];
        } else {
          assert front[i];
        }
      }
    }
  }

  /** A directory is a game root exactly when two different entries have indicator names. */
  lemma GameRootIff(e: Entry)
    ensures IsGameRoot(e) <==>
              e.Dir? && exists i, j :: 0 <= i < j < |e.children| && IsIndicator(e.children[i].name)
                                       && IsIndicator(e.children[j].name)
  {
    if e.Dir? {
      var marks := Marks(e.children);
      CountTrueTwo(marks);
      assert forall i :: 0 <= i < |e.children| ==> marks[i] == IsIndicator(e.children[i].name);
      if exists i, j :: 0 <= i < j < |marks| && marks[i] && marks[j] {
        var i, j :| 0 <= i < j < |marks| && marks[i] && marks[j];
        assert IsIndicator(e.children[i].name) && IsIndicator(e.children[j].name);
      }
      if exists i, j :: 0 <= i < j < |e.children| && IsIndicator(e.children[i].name) && IsIndicator(e.children[j].name) {
        var i, j :| 0 <= i < j < |e.children| && IsIndicator(e.children[i].name) && IsIndicator(e.children[j].name);
        assert marks[i] && marks[j];
      }
    }
  }

  /** A file is never a game root. */
  lemma FileIsNotGameRoot(name: string)
    ensures !IsGameRoot(File(name))
  {
  }

  /** Letter case of the entry names does not matter. */
  lemma GameRootIgnoresCase(name: string, other: string)
    requires SameIgnoringCase(name, other)
    ensures IsIndicator(name) <==> IsIndicator(other)
  {
    SameIgnoringCaseLower(name, other);
  }

  /** `_is_game_root_directory`, counting as the source's loop does. */
  method IsGameRootDirectory(e: Entry) returns (r: bool)
    ensures r == IsGameRoot(e)
  {
    if !e.Dir? {
      return false;
    }
    var found := 0;
    ghost var marks := Marks(e.children);
    for i := 0 to |e.children|
      invariant found == CountTrue(marks[..i])
    {
      assert marks[..i + 1][..i] == marks[..i];
      if IsIndicator(e.children[i].name) {
        found := found + 1;
      }
    }
    assert marks[..|e.children|] == marks;
    return found >= 2;
  }

  /** The position of the first child directory of `items` that is a game root. */
  function FirstRootChild(items: seq<Entry>): (r: Option<nat>)
    ensures r.Some? ==> r.value < |items| && IsGameRoot(items[r.value])
                        && forall j :: 0 <= j < r.value ==> !IsGameRoot(items[j])
    ensures r.None? ==> forall j :: 0 <= j < |items| ==> !IsGameRoot(items[j])
    decreases |items|
  {
    if items == [] then None
    else if IsGameRoot(items[0]) then Some(0)
    else
      var rest := FirstRootChild(items[1..]);
      assert forall j :: 1 <= j < |items| ==> items[j] == items[1..][j - 1];
      if rest.None? then None else Some(rest.value + 1)
  }

  /**
   * `get_extracted_root_dir` on the extract directory `root`: the chain of
   * directories from `root` down to the game root, so the returned path is
   * `root` joined with the chain's names (`[]` is `root` itself). `None` for
   * an empty extract directory, or when `root` is not a directory (listing
   * it raises).
   */
  function ExtractedRoot(root: Entry): (r: Option<seq<Entry>>)
    ensures r.None? <==> !root.Dir? || root.children == []
    ensures r.Some? ==> |r.value| <= 2
  {
    if !root.Dir? || root.children == [] then None
    else if |root.children| == 1 && root.children[0].Dir? then
      var single := root.children[0];
      if IsGameRoot(single) then Some([single])
      else if |single.children| == 1 && single.children[0].Dir? && IsGameRoot(single.children[0]) then
        Some([single, single.children[0]])
      else Some([single])
    else if IsGameRoot(root) then Some([])
    else match FirstRootChild(root.children)
      case Some(i) => Some([root.children[i]])
      case None => Some([])
  }

  /** Each entry of the chain is a directory among the children of the one before. */
  predicate ChainBelow(root: Entry, chain: seq<Entry>) {
    root.Dir?
    && (forall k :: 0 <= k < |chain| ==> chain[k].Dir?)
    && (|chain| >= 1 ==> chain[0] in root.children)
    && forall k :: 0 <= k < |chain| - 1 ==> chain[k].Dir? && chain[k + 1] in chain[k].children
  }

  /** A result is the extract directory or a directory below it, at most two levels down. */
  lemma ExtractedRootDepth(root: Entry)
    ensures ExtractedRoot(root).Some? ==> |ExtractedRoot(root).value| <= 2 && ChainBelow(root, ExtractedRoot(root).value)
  {
  }

  /** An extract directory with nothing in it gives `None`. */
  lemma EmptyExtractHasNoRoot(name: string)
    ensures ExtractedRoot(Dir(name, [])) == None
  {
  }

  /**
   * With several entries (or a single file), a result other than a child
   * game root is the extract directory itself, and a child is chosen only
   * when the extract directory is not a game root.
   */
  lemma ExtractedRootSeveral(root: Entry)
    requires root.Dir? && root.children != [] && !(|root.children| == 1 && root.children[0].Dir?)
    ensures ExtractedRoot(root).Some?
    ensures IsGameRoot(root) ==> ExtractedRoot(root).value == []
    ensures !IsGameRoot(root) && (exists i :: 0 <= i < |root.children| && IsGameRoot(root.children[i])) ==>
              |ExtractedRoot(root).value| == 1 && IsGameRoot(ExtractedRoot(root).value[0])
    ensures (forall i :: 0 <= i < |root.children| ==> !IsGameRoot(root.children[i])) && !IsGameRoot(root) ==>
              ExtractedRoot(root).value == []
  {
  }

  /** `get_extracted_root_dir`, searching the children in listing order as the source's loop does. */
  method GetExtractedRootDir(root: Entry) returns (r: Option<seq<Entry>>)
    ensures r == ExtractedRoot(root)
  {
    if !root.Dir? || root.children == [] {
      return None;
    }
    var contents := root.children;
    if |contents| == 1 && contents[0].Dir? {
      var single := contents[0];
      var isRoot := IsGameRootDirectory(single);
      if isRoot {
        return Some([single]);
      }
      var sub := single.children;
      if |sub| == 1 && sub[0].Dir? {
        isRoot := IsGameRootDirectory(sub[0]);
        if isRoot {
          return Some([single, sub[0]]);
        }
      }
      return Some([single]);
    }
    var isRoot := IsGameRootDirectory(root);
    if isRoot {
      return Some([]);
    }
    for i := 0 to |contents|
      invariant forall j :: 0 <= j < i ==> !IsGameRoot(contents[j])
    {
      if contents[i].Dir? {
        isRoot := IsGameRootDirectory(contents[i]);
        if isRoot {
          assert FirstRootChild(contents) == Some(i);
          return Some([contents[i]]);
        }
      }
    }
    return Some([]);
  }

  /** `remove_directory`: a path that does not exist counts as removed; otherwise the removal's outcome. */
  function RemoveDirectory(exists_: bool, removalSucceeds: bool): (ok: bool)
    ensures !exists_ ==> ok
    ensures exists_ ==> ok == removalSucceeds
  {
    !exists_ || removalSucceeds
  }

  /** The names of a directory's entries, in listing order. */
  function Names(items: seq<Entry>): (r: seq<string>)
    ensures |r| == |items| && forall i :: 0 <= i < |items| ==> r[i] == items[i].name
  {
    if items == [] then [] else [items[0].name] + Names(items[1..])
  }

  /** `list_directory`: `[]` for a missing path or a file, else the entry names. */
  function ListDirectory(path: Option<Entry>): (r: seq<string>)
    ensures path.None? || path.value.File? ==> r == []
    ensures path.Some? && path.value.Dir? ==> r == Names(path.value.children)
  {
    match path
    case None => []
    case Some(File(_)) => []
    case Some(Dir(_, children)) => Names(children)
  }
}
