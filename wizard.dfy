/** The key-creation wizard: five steps walked forwards and backwards, and
    the validation of the file name and of the passphrase entered on the
    way. The options it gathers are the ones key generation takes. */
module Wizard {
  import opened Common
  import opened Keys

  datatype WizardStep = SelectType | EnterFilename | EnterComment | EnterPassphrase | Confirm

  /** Place of a step in the walk, from 0 (`SelectType`) to 4 (`Confirm`). */
  function Position(s: WizardStep): nat
  {
    match s
    case SelectType => 0
    case EnterFilename => 1
    case EnterComment => 2
    case EnterPassphrase => 3
    case Confirm => 4
  }

  /** Steps are told apart by their place. */
  lemma PositionInjective(a: WizardStep, b: WizardStep)
    requires Position(a) == Position(b)
    ensures a == b
  {
  }

  /** `next_step`: one step forward; `Confirm` stays where it is. */
  function Next(s: WizardStep): (t: WizardStep)
    ensures Position(t) == if s == Confirm then 4 else Position(s) + 1
  {
    match s
    case SelectType => EnterFilename
    case EnterFilename => EnterComment
    case EnterComment => EnterPassphrase
    case EnterPassphrase => Confirm
    case Confirm => Confirm
  }

  /** `previous_step`: one step back; `SelectType` stays where it is. */
  function Previous(s: WizardStep): (t: WizardStep)
    ensures Position(t) == if s == SelectType then 0 else Position(s) - 1
  {
    match s
    case SelectType => SelectType
    case EnterFilename => SelectType
    case EnterComment => EnterFilename
    case EnterPassphrase => EnterComment
    case Confirm => EnterPassphrase
  }

  /** Going back undoes going forward, except at the last step. */
  lemma PreviousNext(s: WizardStep)
    requires s != Confirm
    ensures Previous(Next(s)) == s
  {
    PositionInjective(Previous(Next(s)), s);
  }

  /** Going forward undoes going back, except at the first step. */
  lemma NextPrevious(s: WizardStep)
    requires s != SelectType
    ensures Next(Previous(s)) == s
  {
    PositionInjective(Next(Previous(s)), s);
  }

  /** `Next` applied `k` times. */
  function NextN(s: WizardStep, k: nat): WizardStep
  {
    if k == 0 then s else Next(NextN(s, k - 1))
  }

  /** Pressing "next" k times moves k steps, stopping at `Confirm`; four
      presses reach `Confirm` from anywhere. */
  lemma {:induction false} NextNPosition(s: WizardStep, k: nat)
    ensures Position(NextN(s, k)) == if Position(s) + k >= 4 then 4 else Position(s) + k
  {
    if k > 0 {
      NextNPosition(s, k - 1);
    }
  }

  /** `KeyGenOptions`: what key generation is asked to produce. */
  datatype KeyGenOptions = KeyGenOptions(
    keyType: KeyType,
    bits: Option<nat>,
    comment: string,
    passphrase: Option<string>,
    filename: string)

  /** `KeyGenOptions::default`, with the `user@host` comment supplied. */
  function DefaultOptions(userAtHost: string): (o: KeyGenOptions)
    ensures o.filename == DefaultFilename(o.keyType)
    ensures o.keyType == Ed25519 && o.bits.None? && o.passphrase.None? && o.comment == userAtHost
  {
    KeyGenOptions(Ed25519, None, userAtHost, None, "id_ed25519")
  }

  const EmptyFilenameError: string := "Filename cannot be empty"
  const SeparatorFilenameError: string := "Filename cannot contain path separators"
  const PassphraseMismatchError: string := "Passphrases do not match"

  /** The message `set_filename` shows for a rejected name, or `None` for a
      name it accepts: a name is accepted exactly when it is non-empty and
      holds neither separator. */
  function FilenameError(filename: string): (e: Option<string>)
    ensures e.None? <==> filename != [] && '/' !in filename && '\\' !in filename
    ensures e == Some(EmptyFilenameError) <==> filename == []
  {
    if filename == [] then Some(EmptyFilenameError)
    else if '/' in filename || '\\' in filename then Some(SeparatorFilenameError)
    else None
  }

  /** What `set_passphrase` stores: `None` when no passphrase was typed,
      otherwise the confirmed passphrase; `None` as the outer value when
      the confirmation differs. */
  function ChosenPassphrase(passphrase: string, confirm: string): (r: Option<Option<string>>)
    ensures r.None? <==> passphrase != [] && passphrase != confirm
    ensures r == Some(None) <==> passphrase == []
    ensures r.Some? && r.value.Some? ==> r.value.value == passphrase == confirm
  {
    if passphrase != [] && passphrase != confirm then None
    else if passphrase == [] then Some(None)
    else Some(Some(passphrase))
  }

  const SummaryTail: string := "\nPassphrase: "

  /** `CreateWizard`. */
  class CreateWizard {
    var step: WizardStep
    var options: KeyGenOptions
    var tempFilename: string
    var tempComment: string
    var tempPassphrase: string
    var confirmPassphrase: string
    var errorMessage: Option<string>

    /** The scratch fields, which no step method changes except
        `SelectType` (`tempFilename`). */
    function Scratch(): (string, string, string)
      reads this
    {
      (tempComment, tempPassphrase, confirmPassphrase)
    }

    /** `CreateWizard::new`, with the `user@host` comment supplied. */
    constructor (userAtHost: string)
      ensures step == WizardStep.SelectType && options == DefaultOptions(userAtHost) && errorMessage.None?
      ensures tempFilename == DefaultFilename(Ed25519) && Scratch() == (userAtHost, "", "")
    {
      step := WizardStep.SelectType;
      options := DefaultOptions(userAtHost);
      tempFilename := "id_ed25519";
      tempComment := userAtHost;
      tempPassphrase := "";
      confirmPassphrase := "";
      errorMessage := None;
    }

    /** `select_type`: the type chosen, its usual file name proposed, and
        the wizard on to the file name. */
    method SelectType(t: KeyType)
      modifies this
      ensures options == old(options).(keyType := t)
      ensures tempFilename == DefaultFilename(t) && step == EnterFilename
      ensures errorMessage == old(errorMessage) && Scratch() == old(Scratch())
    {
      options := options.(keyType := t);
      tempFilename := DefaultFilename(t);
      step := EnterFilename;
    }

    /** `set_filename`: an acceptable name is stored, the error cleared and
        the wizard moved to the comment; a rejected one leaves options and
        step alone and shows why. */
    method SetFilename(filename: string) returns (accepted: bool)
      modifies this
      ensures accepted <==> FilenameError(filename).None?
      ensures accepted ==> options == old(options).(filename := filename) && step == EnterComment
      ensures !accepted ==> options == old(options) && step == old(step)
      ensures errorMessage == FilenameError(filename)
      ensures tempFilename == old(tempFilename) && Scratch() == old(Scratch())
    {
      if filename == [] {
        errorMessage := Some(EmptyFilenameError);
        return false;
      }
      if '/' in filename || '\\' in filename {
        errorMessage := Some(SeparatorFilenameError);
        return false;
      }
      options := options.(filename := filename);
      step := EnterComment;
      errorMessage := None;
      return true;
    }

    /** `set_comment`: the comment given, or `user@host` for an empty one,
        and the wizard moved to the passphrase. */
    method SetComment(comment: string, userAtHost: string)
      modifies this
      ensures options == old(options).(comment := if comment == [] then userAtHost else comment)
      ensures step == EnterPassphrase
      ensures errorMessage == old(errorMessage)
      ensures tempFilename == old(tempFilename) && Scratch() == old(Scratch())
    {
      options := options.(comment := if comment == [] then userAtHost else comment);
      step := EnterPassphrase;
    }

    /** `set_passphrase`: refused, with an error, exactly when a passphrase
        was typed and its confirmation differs; otherwise the choice is
        stored and the error cleared. The step never changes. */
    method SetPassphrase(passphrase: string, confirm: string) returns (accepted: bool)
      modifies this
      ensures accepted <==> ChosenPassphrase(passphrase, confirm).Some?
      ensures accepted ==> options == old(options).(passphrase := ChosenPassphrase(passphrase, confirm).value)
      ensures accepted ==> errorMessage.None?
      ensures !accepted ==> options == old(options) && errorMessage == Some(PassphraseMismatchError)
      ensures step == old(step)
      ensures tempFilename == old(tempFilename) && Scratch() == old(Scratch())
    {
      if passphrase != [] && passphrase != confirm {
        errorMessage := Some(PassphraseMismatchError);
        return false;
      }
      options := options.(passphrase := if passphrase == [] then None else Some(passphrase));
      errorMessage := None;
      return true;
    }

    method NextStep()
      modifies this
      ensures step == Next(old(step))
      ensures options == old(options) && errorMessage == old(errorMessage)
      ensures tempFilename == old(tempFilename) && Scratch() == old(Scratch())
    {
      step := Next(step);
    }

    method PreviousStep()
      modifies this
      ensures step == Previous(old(step))
      ensures options == old(options) && errorMessage == old(errorMessage)
      ensures tempFilename == old(tempFilename) && Scratch() == old(Scratch())
    {
      step := Previous(step);
    }

    /** `get_summary`: four lines, type, file name, comment, and whether a
        passphrase protects the key; the last line says "Yes" exactly when
        one was chosen. */
    function Summary(): (s: string)
      reads this
      ensures |s| > 10
      ensures s[|s| - 3..] == "Yes" <==> options.passphrase.Some?
      ensures s[..10] == "Key Type: "
    {
      var lines := "Key Type: " + KeyTypeName(options.keyType)
        + "\nFilename: " + options.filename
        + "\nComment: " + options.comment;
      var head := lines + SummaryTail;
      var answer := if options.passphrase.Some? then "Yes" else "No";
      assert head[|head| - 1] == ' ' && head[..10] == "Key Type: ";
      assert (head + answer)[..10] == head[..10];
      assert options.passphrase.None? ==> (head + answer)[|head + answer| - 3] == ' ';
      head + answer
    }
  }
}
