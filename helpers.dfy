/**
 * `get_next_install_directory`: the first free `gameN` directory under
 * `base/game`, giving up after `game1000`.
 */
module Helpers {
  import opened Text
  import opened Paths

  /** The directory name `f"game{n}"`. */
  function SlotName(n: nat): (s: string)
    ensures |s| > 4 && s[..4] == "game" && AllDigits(s[4..])
  {
    "game" + NatToString(n)
  }

  /** Different numbers give different directory names. */
  lemma SlotNameInjective(m: nat, n: nat)
    requires SlotName(m) == SlotName(n)
    ensures m == n
  {
    assert SlotName(m)[4..] == NatToString(m);
    assert SlotName(n)[4..] == NatToString(n);
    NatToStringInjective(m, n);
  }

  /** `dir / f"game{n}"`. */
  function Slot(dir: Path, n: nat): (p: Path)
    ensures p == Join(dir, SlotName(n))
  {
    dir + [SlotName(n)]
  }

  lemma SlotInjective(dir: Path, m: nat, n: nat)
    requires Slot(dir, m) == Slot(dir, n)
    ensures m == n
  {
    assert Slot(dir, m)[|dir|] == SlotName(m);
    SlotNameInjective(m, n);
  }

  /** The candidate `base/game/game{n}`. */
  function Candidate(base: Path, game: string, n: nat): (p: Path)
    ensures p == Slot(Join(base, game), n)
  {
    Slot(Join(base, game), n)
  }

  /** The highest number tried before giving up. */
  const MaxSlot: nat := 1000

  /**
   * `get_next_install_directory(base, game)` over an abstract file system:
   * `existing` is the set of existing paths and `mkdirOk` says whether
   * creating `base/game` succeeds.
   */
  method GetNextInstallDirectory(base: Path, game: string, existing: set<Path>, mkdirOk: bool) returns (r: Path)
    ensures exists n :: 0 <= n <= MaxSlot && r == Candidate(base, game, n)
    ensures mkdirOk && (exists n :: 0 <= n <= MaxSlot && Candidate(base, game, n) !in existing) ==>
              exists n :: 0 <= n <= MaxSlot && r == Candidate(base, game, n) && r !in existing
                && forall m :: 0 <= m < n ==> Candidate(base, game, m) in existing
    ensures !mkdirOk || (forall n :: 0 <= n <= MaxSlot ==> Candidate(base, game, n) in existing) ==>
              r == Candidate(base, game, 0)
  {
    if !mkdirOk {
      // the failing mkdir raises; the handler falls back to game0
      return Candidate(base, game, 0);
    }
    var gameDir := Join(base, game);
    var n: nat := 0;
    while true
      invariant n <= MaxSlot
      invariant forall m :: 0 <= m < n ==> Candidate(base, game, m) in existing
      decreases MaxSlot - n
    {
      var installDir := Slot(gameDir, n);
      if installDir !in existing {
        assert installDir == Candidate(base, game, n);
        return installDir;
      }
      n := n + 1;
      if n > MaxSlot {
        // the RuntimeError raised here is caught by the same handler
        assert forall m :: 0 <= m <= MaxSlot ==> Candidate(base, game, m) in existing;
        return Candidate(base, game, 0);
      }
    }
  }
}
