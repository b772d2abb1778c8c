/**
 * The two timeline dialogs' confirm and cancel handlers. `CheckpointDialog`
 * asks for a checkpoint message and optionally a new branch's name;
 * `BranchDialog` asks only for a branch name. Confirming checks the input
 * in a fixed order, shows the first problem found and keeps the dialog
 * open, or records the result, closes the dialog and passes the result to
 * the callback. The entry widgets' contents are the handlers' parameters,
 * and the error box shown is their out-parameter.
 */
module CheckpointDialogs {
  import opened Wrappers
  import opened Text
  import opened InputDialog

  const MissingMessage := "Please enter a checkpoint message."
  const MissingBranch := "Please enter a branch name."
  const InvalidBranch := "Branch name can only contain letters, numbers, hyphens, and underscores."

  /**
   * `_is_valid_branch_name`, the same in both dialogs:
   * `re.match(r'^[a-zA-Z0-9_-]+$', name)`. Python's `$` also matches just
   * before a final newline, so a valid name followed by `"\n"` passes too.
   */
  predicate IsValidBranchName(name: string)
    ensures IsValidBranchName(name) ==> name != [] && AllBranchChars(name[..|name| - 1])
  {
    name != []
    && (AllBranchChars(name)
        || (|name| >= 2 && name[|name| - 1] == '\n' && AllBranchChars(name[..|name| - 1])))
  }

  /** What a confirm click leads to: an error box, or a result. */
  datatype Outcome<T> = Rejected(error: string) | Accepted(value: T)

  /** The dictionary `CheckpointDialog` hands back. */
  datatype CheckpointResult = CheckpointResult(message: string, createBranch: bool, branchName: Option<string>)

  /** `CheckpointDialog._on_create_clicked`'s checks, in the source's order. */
  function CheckpointOutcome(messageText: string, createBranch: bool, branchText: string): (r: Outcome<CheckpointResult>)
    ensures r.Rejected? ==> r.error in {MissingMessage, MissingBranch, InvalidBranch}
    ensures r.Accepted? ==> r.value.message == Strip(messageText) && r.value.message != []
    ensures r.Accepted? ==> (r.value.createBranch == createBranch && (r.value.branchName.Some? <==> createBranch))
    ensures r.Accepted? && createBranch ==> IsValidBranchName(r.value.branchName.value)
  {
    var message := Strip(messageText);
    if message == [] then Rejected(MissingMessage)
    else
      var branchName: Option<string> := if createBranch then Some(Strip(branchText)) else None;
      if createBranch && branchName.value == [] then Rejected(MissingBranch)
      else if branchName.Some? && branchName.value != [] && !IsValidBranchName(branchName.value) then Rejected(InvalidBranch)
      else Accepted(CheckpointResult(message, createBranch, branchName))
  }

  /** `BranchDialog._on_create_clicked`'s checks. */
  function BranchOutcome(branchText: string): (r: Outcome<string>)
    ensures r.Rejected? ==> r.error in {MissingBranch, InvalidBranch}
    ensures r.Accepted? ==> r.value == Strip(branchText) && IsValidBranchName(r.value)
  {
    var branchName := Strip(branchText);
    if branchName == [] then Rejected(MissingBranch)
    else if !IsValidBranchName(branchName) then Rejected(InvalidBranch)
    else Accepted(branchName)
  }

  class CheckpointDialog {
    const saveGameName: string
    /** Whether an `on_checkpoint_created` callback was given. */
    const hasCallback: bool
    var result: Option<CheckpointResult>
    var closed: bool
    /** The results passed to `on_checkpoint_created`, oldest first. */
    var delivered: seq<Option<CheckpointResult>>

    constructor (saveGameName: string, hasCallback: bool)
      ensures this.saveGameName == saveGameName && this.hasCallback == hasCallback
      ensures result == None && !closed && delivered == []
    {
      this.saveGameName := saveGameName;
      this.hasCallback := hasCallback;
      result := None;
      closed := false;
      delivered := [];
    }

    /** `_close_dialog`: close, then call the callback with the result when there is one. */
    method CloseDialog()
      modifies this
      ensures closed && result == old(result)
      ensures delivered == old(delivered) + if hasCallback then [result] else []
    {
      closed := true;
      if hasCallback {
        delivered := delivered + [result];
      }
    }

    /** `_on_create_clicked` with the message entry, the checkbox and the branch entry as read from the widgets. */
    method OnCreateClicked(messageText: string, createBranch: bool, branchText: string) returns (error: Option<string>)
      modifies this
      ensures CheckpointOutcome(messageText, createBranch, branchText).Rejected? ==>
                error == Some(CheckpointOutcome(messageText, createBranch, branchText).error)
                && result == old(result) && closed == old(closed) && delivered == old(delivered)
      ensures CheckpointOutcome(messageText, createBranch, branchText).Accepted? ==>
                error == None && result == Some(CheckpointOutcome(messageText, createBranch, branchText).value)
                && closed && delivered == old(delivered) + if hasCallback then [result] else []
    {
      var message := Strip(messageText);
      if message == [] {
        return Some(MissingMessage);
      }
      var branchName: Option<string> := None;
      if createBranch {
        branchName := Some(Strip(branchText));
      }
      if createBranch && branchName.value == [] {
        return Some(MissingBranch);
      }
      if branchName.Some? && branchName.value != [] && !IsValidBranchName(branchName.value) {
        return Some(InvalidBranch);
      }
      result := Some(CheckpointResult(message, createBranch, branchName));
      CloseDialog();
      error := None;
    }

    /** `_on_cancel_clicked`: the result becomes `None` and the dialog closes. */
    method OnCancelClicked()
      modifies this
      ensures result == None && closed
      ensures delivered == old(delivered) + if hasCallback then [None] else []
    {
      result := None;
      CloseDialog();
    }
  }

  class BranchDialog {
    const saveGameName: string
    const currentCheckpoint: string
    /** Whether an `on_branch_created` callback was given. */
    const hasCallback: bool
    var result: Option<string>
    var closed: bool
    /** The results passed to `on_branch_created`, oldest first. */
    var delivered: seq<Option<string>>

    constructor (saveGameName: string, currentCheckpoint: string, hasCallback: bool)
      ensures this.saveGameName == saveGameName && this.currentCheckpoint == currentCheckpoint
      ensures this.hasCallback == hasCallback
      ensures result == None && !closed && delivered == []
    {
      this.saveGameName := saveGameName;
      this.currentCheckpoint := currentCheckpoint;
      this.hasCallback := hasCallback;
      result := None;
      closed := false;
      delivered := [];
    }

    /** `_close_dialog`: close, then call the callback with the result when there is one. */
    method CloseDialog()
      modifies this
      ensures closed && result == old(result)
      ensures delivered == old(delivered) + if hasCallback then [result] else []
    {
      closed := true;
      if hasCallback {
        delivered := delivered + [result];
      }
    }

    /** `_on_create_clicked` with the branch entry as read from the widget. */
    method OnCreateClicked(branchText: string) returns (error: Option<string>)
      modifies this
      ensures BranchOutcome(branchText).Rejected? ==>
                error == Some(BranchOutcome(branchText).error)
                && result == old(result) && closed == old(closed) && delivered == old(delivered)
      ensures BranchOutcome(branchText).Accepted? ==>
                error == None && result == Some(BranchOutcome(branchText).value)
                && closed && delivered == old(delivered) + if hasCallback then [result] else []
    {
      var branchName := Strip(branchText);
      if branchName == [] {
        return Some(MissingBranch);
      }
      if !IsValidBranchName(branchName) {
        return Some(InvalidBranch);
      }
      result := Some(branchName);
      CloseDialog();
      error := None;
    }

    /** `_on_cancel_clicked`: the result becomes `None` and the dialog closes. */
    method OnCancelClicked()
      modifies this
      ensures result == None && closed
      ensures delivered == old(delivered) + if hasCallback then [None] else []
    {
      result := None;
      CloseDialog();
    }
  }

  // ---- properties of the validator ----

  /** The empty name is never valid. */
  lemma EmptyNameInvalid()
    ensures !IsValidBranchName("")
  {
  }

  /** A name with nothing around it to strip is valid exactly when it is non-empty and all `[a-zA-Z0-9_-]`. */
  lemma StrippedValidIff(name: string)
    requires Strip(name) == name
    ensures IsValidBranchName(name) <==> name != [] && AllBranchChars(name)
  {
    StripShape(name);
  }

  /** What the handlers validate is a stripped entry, for which the trailing-newline case cannot arise. */
  lemma StrippedTextValidIff(text: string)
    ensures IsValidBranchName(Strip(text)) <==> Strip(text) != [] && AllBranchChars(Strip(text))
  {
    StripShape(text);
    StrippedValidIff(Strip(text));
  }

  /** `$` before a final newline: a valid name followed by `"\n"` is accepted as well. */
  lemma TrailingNewlineAccepted(name: string)
    requires name != [] && AllBranchChars(name)
    ensures IsValidBranchName(name + "\n")
  {
    assert (name + "\n")[..|name|] == name;
  }

  /** A branch character is never whitespace, so a valid name has nothing to strip but a final newline. */
  lemma BranchCharNotSpace(c: char)
    requires BranchChar(c)
    ensures !IsSpace(c)
  {
  }

  /** A branch part produced by `validate_branch_name` passes the dialogs' validator. */
  lemma CleanBranchIsValid(branch: string, save: string)
    requires ValidateBranchName(branch, save).Some?
    ensures IsValidBranchName(CleanBranch(branch))
  {
    ValidateBranchNameResult(branch, save);
  }

  // ---- properties of the confirm handlers ----

  /** An empty or whitespace-only message is rejected first, whatever the branch inputs. */
  lemma MessageCheckedFirst(messageText: string, createBranch: bool, branchText: string)
    requires forall i :: 0 <= i < |messageText| ==> IsSpace(messageText[i])
    ensures CheckpointOutcome(messageText, createBranch, branchText) == Rejected(MissingMessage)
  {
    StripEmptyIff(messageText);
  }

  /** Without the checkbox the branch entry is ignored and the result's branch name is `None`. */
  lemma BranchIgnoredUnlessRequested(messageText: string, branchText: string, otherText: string)
    ensures CheckpointOutcome(messageText, false, branchText) == CheckpointOutcome(messageText, false, otherText)
    ensures CheckpointOutcome(messageText, false, branchText).Accepted? <==> Strip(messageText) != []
    ensures CheckpointOutcome(messageText, false, branchText).Accepted? ==>
              CheckpointOutcome(messageText, false, branchText).value
                == CheckpointResult(Strip(messageText), false, None)
  {
  }

  /**
   * A checkpoint is created exactly when the stripped message is non-empty
   * and, if a branch was requested, the stripped branch name is a non-empty
   * run of `[a-zA-Z0-9_-]`; the result holds the stripped texts.
   */
  lemma CheckpointAcceptedIff(messageText: string, createBranch: bool, branchText: string)
    ensures CheckpointOutcome(messageText, createBranch, branchText).Accepted? <==>
              Strip(messageText) != []
              && (createBranch ==> Strip(branchText) != [] && AllBranchChars(Strip(branchText)))
    ensures CheckpointOutcome(messageText, createBranch, branchText).Accepted? ==>
              CheckpointOutcome(messageText, createBranch, branchText).value
                == CheckpointResult(Strip(messageText), createBranch,
                                    if createBranch then Some(Strip(branchText)) else None)
  {
    StrippedTextValidIff(branchText);
  }

  /** The error shown for a requested branch: missing before malformed. */
  lemma CheckpointBranchErrors(messageText: string, branchText: string)
    requires Strip(messageText) != []
    ensures Strip(branchText) == [] ==> CheckpointOutcome(messageText, true, branchText) == Rejected(MissingBranch)
    ensures Strip(branchText) != [] && !AllBranchChars(Strip(branchText)) ==>
              CheckpointOutcome(messageText, true, branchText) == Rejected(InvalidBranch)
  {
    StrippedTextValidIff(branchText);
  }

  /**
   * `BranchDialog` accepts exactly a stripped name that is a non-empty run
   * of `[a-zA-Z0-9_-]`, and its result is that stripped name; a blank entry
   * is reported before a malformed one.
   */
  lemma BranchOutcomeIff(branchText: string)
    ensures BranchOutcome(branchText).Accepted? <==> Strip(branchText) != [] && AllBranchChars(Strip(branchText))
    ensures BranchOutcome(branchText).Accepted? ==> BranchOutcome(branchText).value == Strip(branchText)
    ensures Strip(branchText) == [] ==> BranchOutcome(branchText) == Rejected(MissingBranch)
    ensures Strip(branchText) != [] && !AllBranchChars(Strip(branchText)) ==> BranchOutcome(branchText) == Rejected(InvalidBranch)
  {
    StrippedTextValidIff(branchText);
  }

  /** Both dialogs judge a requested branch name the same way. */
  lemma DialogsAgree(messageText: string, branchText: string)
    requires Strip(messageText) != []
    ensures CheckpointOutcome(messageText, true, branchText).Accepted? <==> BranchOutcome(branchText).Accepted?
    ensures CheckpointOutcome(messageText, true, branchText).Rejected? ==>
              BranchOutcome(branchText).Rejected?
              && CheckpointOutcome(messageText, true, branchText).error == BranchOutcome(branchText).error
  {
    StrippedTextValidIff(branchText);
  }
}
