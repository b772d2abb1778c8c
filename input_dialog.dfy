/**
 * `validate_branch_name`: turning what the user typed into a timeline
 * branch name of the form `<save>-<branch>`. The branch part is stripped,
 * its spaces become underscores, it is lower-cased and then every
 * character outside `[a-zA-Z0-9_-]` is removed; the save part only has
 * spaces replaced and is lower-cased.
 */
module InputDialog {
  import opened Wrappers
  import opened Text

  /** The characters the branch pattern `[a-zA-Z0-9_-]` admits. */
  predicate BranchChar(c: char) {
    ('a' <= c <= 'z') || ('A' <= c <= 'Z') || ('0' <= c <= '9') || c == '-' || c == '_'
  }

  /** The characters a cleaned branch part can hold: `[a-z0-9_-]`. */
  predicate CleanChar(c: char) {
    ('a' <= c <= 'z') || ('0' <= c <= '9') || c == '-' || c == '_'
  }

  predicate AllBranchChars(s: string) {
    forall i :: 0 <= i < |s| ==> BranchChar(s[i])
  }

  predicate AllCleanChars(s: string) {
    forall i :: 0 <= i < |s| ==> CleanChar(s[i])
  }

  /** `re.sub(r'[^a-zA-Z0-9\-_]', '', s)`: the branch characters of `s`, in order. */
  function KeepBranchChars(s: string): (r: string)
    ensures |r| <= |s|
    decreases |s|
  {
    if s == [] then [] else (if BranchChar(s[0]) then [s[0]] else []) + KeepBranchChars(s[1..])
  }

  /** `branch_name.strip().replace(" ", "_").lower()` followed by the filter. */
  function CleanBranch(branch: string): (r: string)
    ensures |r| <= |branch|
  {
    KeepBranchChars(Lower(ReplaceChar(Strip(branch), ' ', '_')))
  }

  /** `save_name.replace(' ', '_').lower()`. */
  function CleanSaveName(save: string): (r: string)
    ensures |r| == |save|
  {
    Lower(ReplaceChar(save, ' ', '_'))
  }

  /** `validate_branch_name(branch_name, save_name)`. */
  function ValidateBranchName(branch: string, save: string): (r: Option<string>)
    ensures r.Some? <==> CleanBranch(branch) != []
    ensures r.Some? ==> |r.value| == |save| + 1 + |CleanBranch(branch)| && r.value[|save|] == '-'
  {
    if branch == [] || Strip(branch) == [] then None
    else
      var clean := CleanBranch(branch);
      if clean == [] then None else Some(CleanSaveName(save) + "-" + clean)
  }

  // ---- the filter ----

  /** The filter keeps exactly the branch characters, so its result is all branch characters. */
  lemma {:induction false} KeepBranchCharsOnly(s: string)
    ensures AllBranchChars(KeepBranchChars(s))
    ensures forall c :: c in KeepBranchChars(s) <==> c in s && BranchChar(c)
    decreases |s|
  {
    if s != [] {
      KeepBranchCharsOnly(s[1..]);
      assert forall c :: c in s <==> c == s[0] || c in s[1..];
    }
  }

  /** Filtering a concatenation filters each part. */
  lemma {:induction false} KeepBranchCharsAppend(a: string, b: string)
    ensures KeepBranchChars(a + b) == KeepBranchChars(a) + KeepBranchChars(b)
    decreases |a|
  {
    if a == [] {
      assert a + b == b;
    } else {
      var head := if BranchChar(a[0]) then [a[0]] else [];
      assert (a + b)[0] == a[0];
      assert (a + b)[1..] == a[1..] + b;
      KeepBranchCharsAppend(a[1..], b);
      calc {
        KeepBranchChars(a + b);
        head + KeepBranchChars(a[1..] + b);
        head + (KeepBranchChars(a[1..]) + KeepBranchChars(b));
        (head + KeepBranchChars(a[1..])) + KeepBranchChars(b);
      }
    }
  }

  /** A string of branch characters passes the filter unchanged; any other character is dropped. */
  lemma {:induction false} KeepBranchCharsNoop(s: string)
    ensures KeepBranchChars(s) == s <==> AllBranchChars(s)
    decreases |s|
  {
    if s != [] {
      KeepBranchCharsNoop(s[1..]);
      if !BranchChar(s[0]) {
        assert |KeepBranchChars(s)| < |s|;
      }
    }
  }

  // ---- properties of validate_branch_name ----

  /** A lower-cased string of branch characters is clean. */
  lemma LowerBranchIsClean(s: string)
    requires AllBranchChars(s)
    ensures AllCleanChars(Lower(s))
  {
  }

  /** Lower-casing keeps branch characters branch characters and other characters other. */
  lemma LowerKeepsBranchChars(c: char)
    ensures BranchChar(LowerChar(c)) <==> BranchChar(c)
  {
  }

  /** What survives cleaning is non-empty exactly when the stripped input has a space or a branch character. */
  lemma {:induction false} KeepNonEmptyIff(s: string)
    ensures KeepBranchChars(s) != [] <==> exists i :: 0 <= i < |s| && BranchChar(s[i])
    decreases |s|
  {
    if s != [] {
      KeepNonEmptyIff(s[1..]);
      assert forall i :: 1 <= i < |s| ==> s[1..][i - 1] == s[i];
    }
  }

  /** The cleaned branch holds only `[a-z0-9_-]`: lower-casing comes before filtering. */
  lemma CleanBranchChars(branch: string)
    ensures AllCleanChars(CleanBranch(branch))
  {
    var lowered := Lower(ReplaceChar(Strip(branch), ' ', '_'));
    KeepBranchCharsOnly(lowered);
    assert forall c :: c in CleanBranch(branch) ==> c in lowered;
    forall i | 0 <= i < |CleanBranch(branch)| ensures CleanChar(CleanBranch(branch)[i]) {
      var c := CleanBranch(branch)[i];
      assert c in CleanBranch(branch);
      var j :| 0 <= j < |lowered| && lowered[j] == c;
    }
  }

  /**
   * `validate_branch_name` succeeds exactly when the stripped input holds a
   * space or a branch character (an interior space survives as `_`), and
   * then gives the cleaned save name, a hyphen and the cleaned branch.
   */
  lemma ValidateBranchNameResult(branch: string, save: string)
    ensures ValidateBranchName(branch, save).Some? <==>
              exists i :: 0 <= i < |Strip(branch)| && (Strip(branch)[i] == ' ' || BranchChar(Strip(branch)[i]))
    ensures ValidateBranchName(branch, save).Some? ==>
              ValidateBranchName(branch, save).value == CleanSaveName(save) + "-" + CleanBranch(branch)
              && CleanBranch(branch) != [] && AllCleanChars(CleanBranch(branch))
  {
    var stripped := Strip(branch);
    var replaced := ReplaceChar(stripped, ' ', '_');
    var lowered := Lower(replaced);
    KeepNonEmptyIff(lowered);
    CleanBranchChars(branch);
    forall i | 0 <= i < |stripped|
      ensures BranchChar(lowered[i]) <==> (stripped[i] == ' ' || BranchChar(stripped[i]))
    {
      LowerKeepsBranchChars(replaced[i]);
    }
    if exists i :: 0 <= i < |stripped| && (stripped[i] == ' ' || BranchChar(stripped[i])) {
      assert stripped != [];
      assert branch != [];
    }
  }

  /** An empty or whitespace-only branch name gives `None`. */
  lemma BlankBranchRejected(branch: string, save: string)
    requires forall i :: 0 <= i < |branch| ==> IsSpace(branch[i])
    ensures ValidateBranchName(branch, save) == None
  {
    StripEmptyIff(branch);
  }

  /** No clean character is whitespace. */
  lemma CleanNotSpace(c: char)
    requires CleanChar(c)
    ensures !IsSpace(c)
  {
  }

  /** Steps of the cleaning that change nothing on a clean string. */
  lemma CleanUnchanged(s: string)
    requires AllCleanChars(s)
    ensures ReplaceChar(s, ' ', '_') == s && Lower(s) == s && AllBranchChars(s)
  {
    assert forall i :: 0 <= i < |s| ==> ReplaceChar(s, ' ', '_')[i] == s[i];
    assert forall i :: 0 <= i < |s| ==> Lower(s)[i] == s[i];
  }

  /** A cleaned branch part is its own cleaning. */
  lemma CleanIsFixed(s: string)
    requires AllCleanChars(s)
    ensures CleanBranch(s) == s
  {
    if s != [] {
      CleanNotSpace(s[0]);
      CleanNotSpace(s[|s| - 1]);
    }
    StripNoop(s);
    CleanUnchanged(s);
    KeepBranchCharsNoop(s);
  }

  /** Cleaning is idempotent. */
  lemma CleanBranchIdempotent(branch: string)
    ensures CleanBranch(CleanBranch(branch)) == CleanBranch(branch)
  {
    CleanBranchChars(branch);
    CleanIsFixed(CleanBranch(branch));
  }

  /** Validating an already formatted branch part again gives the same name. */
  lemma ValidateAgain(branch: string, save: string)
    requires ValidateBranchName(branch, save).Some?
    ensures ValidateBranchName(CleanBranch(branch), save) == ValidateBranchName(branch, save)
  {
    var clean := CleanBranch(branch);
    CleanBranchChars(branch);
    CleanIsFixed(clean);
    assert Strip(clean) == clean;
  }

  /** `replace` works character by character, so it distributes over concatenation. */
  lemma ReplaceAppend(a: string, b: string)
    ensures ReplaceChar(a + b, ' ', '_') == ReplaceChar(a, ' ', '_') + ReplaceChar(b, ' ', '_')
  {
    assert forall i :: 0 <= i < |a| ==> (a + b)[i] == a[i];
    assert forall i :: |a| <= i < |a + b| ==> (a + b)[i] == b[i - |a|];
  }

  lemma CleanAppend(a: string, b: string)
    requires AllCleanChars(a) && AllCleanChars(b)
    ensures AllCleanChars(a + b)
  {
    assert forall i :: 0 <= i < |a| ==> (a + b)[i] == a[i];
    assert forall i :: |a| <= i < |a + b| ==> (a + b)[i] == b[i - |a|];
  }

  /** An interior space between two clean words becomes an underscore instead of being dropped. */
  lemma InteriorSpaceBecomesUnderscore(a: string, b: string)
    requires a != [] && b != [] && AllCleanChars(a) && AllCleanChars(b)
    ensures CleanBranch(a + " " + b) == a + "_" + b
  {
    var s := a + " " + b;
    assert s[0] == a[0] && s[|s| - 1] == b[|b| - 1];
    CleanNotSpace(a[0]);
    CleanNotSpace(b[|b| - 1]);
    StripNoop(s);
    var t := a + "_" + b;
    CleanUnchanged(a);
    CleanUnchanged(b);
    ReplaceAppend(a + " ", b);
    ReplaceAppend(a, " ");
    assert ReplaceChar(" ", ' ', '_') == "_";
    CleanAppend(a, "_");
    CleanAppend(a + "_", b);
    CleanUnchanged(t);
    KeepBranchCharsNoop(t);
  }

  /**
   * The save-name prefix is not filtered: every character of the save name
   * other than a space or an upper-case letter appears unchanged in the
   * result, even one the branch part would have dropped.
   */
  lemma SavePrefixUnfiltered(branch: string, save: string)
    requires ValidateBranchName(branch, save).Some?
    ensures forall i :: 0 <= i < |save| && save[i] != ' ' && !('A' <= save[i] <= 'Z') ==>
              ValidateBranchName(branch, save).value[i] == save[i]
    ensures ValidateBranchName(branch, save).value[|save|] == '-'
  {
  }
}
