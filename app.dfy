/** The state of the terminal interface: the key list and its cyclic
    selection, the message dialog and the screen it returns to, and the glue
    that feeds typed text to the creation wizard and resets the export and
    import dialogs. */
module App {
  import opened Common
  import opened Disk
  import opened Keys
  import Scan
  import Wizard
  import BackupFormat

  datatype AppState = KeyList | KeyDetail | CreateWizard | ExportDialog | ImportDialog
                    | DeleteConfirm | MessageDialog | Quit

  datatype DialogState = EnterPath | EnterPassphrase | Confirm

  datatype MessageType = Success | Error | Info

  /** A message shown in a dialog, and the screen to go back to after it. */
  datatype Message = Message(text: string, kind: MessageType, returnState: AppState)

  /** The selection after `next_key` on a list of `n` keys: one further,
      wrapping from the last key to the first; unchanged on an empty list. */
  function NextIndex(i: nat, n: nat): (j: nat)
    ensures n == 0 ==> j == i
    ensures n > 0 ==> j < n
    ensures n > 0 && i + 1 < n ==> j == i + 1
    ensures n > 0 && i + 1 == n ==> j == 0
  {
    if n == 0 then i else (i + 1) % n
  }

  /** The selection after `previous_key`: one back, wrapping from the first
      key to the last; unchanged on an empty list. */
  function PreviousIndex(i: nat, n: nat): (j: nat)
    ensures n == 0 ==> j == i
    ensures n > 0 && i < n ==> j < n
    ensures n > 0 && i == 0 ==> j == n - 1
  {
    if n == 0 then i else if i == 0 then n - 1 else i - 1
  }

  /** Stepping back after stepping forward returns to the same key. */
  lemma PreviousAfterNext(i: nat, n: nat)
    requires i < n
    ensures PreviousIndex(NextIndex(i, n), n) == i
  {
  }

  /** Stepping forward after stepping back returns to the same key. */
  lemma NextAfterPrevious(i: nat, n: nat)
    requires i < n
    ensures NextIndex(PreviousIndex(i, n), n) == i
  {
  }

  /** `next_key` pressed `k` times. */
  function NextIndexN(i: nat, n: nat, k: nat): nat
  {
    if k == 0 then i else NextIndex(NextIndexN(i, n, k - 1), n)
  }

  /** A positive multiple of `n` is at least `n`. */
  lemma {:induction false} MulAtLeast(x: int, n: nat)
    requires x >= 1
    ensures x * n >= n
    decreases x
  {
    if x > 1 {
      MulAtLeast(x - 1, n);
      assert x * n == (x - 1) * n + n;
    }
  }

  /** Quotient and remainder are unique. */
  lemma ModUnique(a: nat, q: int, r: int, n: nat)
    requires n > 0 && 0 <= r < n && a == q * n + r
    ensures a % n == r
  {
    var q0, r0 := a / n, a % n;
    assert a == q0 * n + r0;
    assert (q - q0) * n == r0 - r;
    if q > q0 {
      MulAtLeast(q - q0, n);
    } else if q < q0 {
      assert (q0 - q) * n == r - r0;
      MulAtLeast(q0 - q, n);
    }
  }

  /** Counting forward by one past a multiple of `n` wraps the remainder to 0. */
  lemma ModSucc(a: nat, n: nat)
    requires n > 0
    ensures (a + 1) % n == if a % n + 1 < n then a % n + 1 else 0
  {
    var q := a / n;
    assert a == q * n + a % n;
    if a % n + 1 < n {
      ModUnique(a + 1, q, a % n + 1, n);
    } else {
      assert a + 1 == (q + 1) * n + 0;
      ModUnique(a + 1, q + 1, 0, n);
    }
  }

  /** Pressing `next_key` k times moves the selection k places around the
      list, wrapping past the last key as often as needed. */
  lemma {:induction false} NextIndexNRotates(i: nat, n: nat, k: nat)
    requires i < n
    ensures NextIndexN(i, n, k) == (i + k) % n
    ensures k <= n ==> NextIndexN(i, n, k) == if i + k < n then i + k else i + k - n
  {
    if k > 0 {
      NextIndexNRotates(i, n, k - 1);
      ModSucc(i + k - 1, n);
    }
  }

  /** After as many presses as there are keys the selection is back where
      it started. */
  lemma FullCycle(i: nat, n: nat)
    requires i < n
    ensures NextIndexN(i, n, n) == i
  {
    NextIndexNRotates(i, n, n);
  }

  /** The part of the wizard that `wizard_next` reads and changes. */
  datatype WizardView = WizardView(step: Wizard.WizardStep, options: Wizard.KeyGenOptions,
                                   errorMessage: Option<string>)

  /** What `wizard_next` does to the wizard and to the typed text: whether
      it reports progress, the wizard afterwards, and the text left in the
      input. At the file name and at the comment the setter already moves
      the wizard on and `next_step` moves it once more, so a successful
      press there advances two steps. */
  function WizardNextEffect(v: WizardView, input: string, confirm: string, userAtHost: string)
    : (r: (bool, WizardView, string))
    ensures r.0 <==> v.step == Wizard.EnterComment || v.step == Wizard.Confirm
                     || (v.step == Wizard.EnterFilename && Wizard.FilenameError(input).None?)
                     || (v.step == Wizard.EnterPassphrase && Wizard.ChosenPassphrase(input, confirm).Some?)
    ensures !r.0 ==> r.1.step == v.step && r.1.options == v.options && r.2 == input
    ensures r.0 && (v.step == Wizard.EnterFilename || v.step == Wizard.EnterComment) ==>
              Wizard.Position(r.1.step) == Wizard.Position(v.step) + 2 && r.2 == []
    ensures r.0 && v.step == Wizard.EnterPassphrase ==>
              r.1.step == Wizard.Confirm && r.1.options.passphrase == Wizard.ChosenPassphrase(input, confirm).value
    ensures v.step == Wizard.Confirm ==> r == (true, v, input)
  {
    match v.step
    case SelectType => (false, v, input)
    case EnterFilename =>
      var e := Wizard.FilenameError(input);
      if e.None? then
        (true, WizardView(Wizard.Next(Wizard.EnterComment), v.options.(filename := input), None), [])
      else (false, v.(errorMessage := e), input)
    case EnterComment =>
      var comment := if input == [] then userAtHost else input;
      (true, v.(step := Wizard.Next(Wizard.EnterPassphrase), options := v.options.(comment := comment)), [])
    case EnterPassphrase =>
      var chosen := Wizard.ChosenPassphrase(input, confirm);
      if chosen.Some? then
        (true, WizardView(Wizard.Next(v.step), v.options.(passphrase := chosen.value), None), input)
      else (false, v.(errorMessage := Some(Wizard.PassphraseMismatchError)), input)
    case Confirm => (true, v, input)
  }

  /** `wizard_next` as its authors meant it: every successful press moves
      exactly one step, so no step of the wizard is skipped. */
  function WizardNextIntended(v: WizardView, input: string, confirm: string, userAtHost: string)
    : (r: (bool, WizardView, string))
    ensures r.0 && v.step != Wizard.Confirm ==> r.1.step == Wizard.Next(v.step)
    ensures !r.0 ==> r.1.step == v.step
  {
    var asWritten := WizardNextEffect(v, input, confirm, userAtHost);
    if asWritten.0 && (v.step == Wizard.EnterFilename || v.step == Wizard.EnterComment) then
      (true, asWritten.1.(step := Wizard.Next(v.step)), asWritten.2)
    else asWritten
  }

  /** The intended press differs from the written one only in the step it
      lands on, and only at the file name and the comment. */
  lemma IntendedDiffersOnlyInStep(v: WizardView, input: string, confirm: string, userAtHost: string)
    ensures var w := WizardNextEffect(v, input, confirm, userAtHost);
            var i := WizardNextIntended(v, input, confirm, userAtHost);
            i.0 == w.0 && i.1.options == w.1.options && i.1.errorMessage == w.1.errorMessage && i.2 == w.2
            && (i.1.step == w.1.step <==> !(w.0 && (v.step == Wizard.EnterFilename || v.step == Wizard.EnterComment)))
  {
  }

  /** With the intended behaviour, accepted entries walk the wizard from the
      file name through the comment and the passphrase to confirmation. */
  lemma IntendedVisitsEveryStep(o: Wizard.KeyGenOptions, name: string, comment: string, userAtHost: string)
    requires Wizard.FilenameError(name).None?
    ensures var r1 := WizardNextIntended(WizardView(Wizard.EnterFilename, o, None), name, "", userAtHost);
            var r2 := WizardNextIntended(r1.1, comment, "", userAtHost);
            var r3 := WizardNextIntended(r2.1, "", "", userAtHost);
            r1.1.step == Wizard.EnterComment && r2.1.step == Wizard.EnterPassphrase
            && r3.1.step == Wizard.Confirm && r3.1.options.filename == name
  {
  }

  /** As written, entering the file name "test_key" lands on the passphrase
      step, where the app's own test expects the comment step. */
  lemma WizardNextSkipsComment(o: Wizard.KeyGenOptions, userAtHost: string)
    ensures WizardNextEffect(WizardView(Wizard.EnterFilename, o, None), "test_key", "", userAtHost).1.step
         == Wizard.EnterPassphrase
    ensures WizardNextIntended(WizardView(Wizard.EnterFilename, o, None), "test_key", "", userAtHost).1.step
         == Wizard.EnterComment
  {
    assert '/' !in "test_key" && '\\' !in "test_key";
  }

  /** The view of a live wizard. */
  function ViewOf(w: Wizard.CreateWizard): WizardView
    reads w
  {
    WizardView(w.step, w.options, w.errorMessage)
  }

  /** `App`, with the configuration reduced to the two directories it names. */
  class App {
    const sshDir: Path
    const exportDir: Path
    var state: AppState
    var keys: seq<SshKey>
    var selectedIndex: nat
    var message: Option<Message>
    var wizard: Wizard.CreateWizard?
    var wizardInput: string
    var wizardConfirmPassphrase: string
    var exportPath: string
    var importPath: string
    var dialogPassphrase: string
    var dialogState: DialogState

    /** A non-empty key list always has a key selected. */
    predicate Valid()
      reads this
    {
      keys == [] || selectedIndex < |keys|
    }

    /** The fields the key list and the message dialog use. */
    function Screen(): (AppState, seq<SshKey>, nat, Option<Message>)
      reads this
    {
      (state, keys, selectedIndex, message)
    }

    /** The fields the creation wizard uses. */
    function WizardFields(): (Wizard.CreateWizard?, string, string)
      reads this
    {
      (wizard, wizardInput, wizardConfirmPassphrase)
    }

    /** The fields the export and import dialogs use. */
    function Dialogs(): (string, string, string, DialogState)
      reads this
    {
      (exportPath, importPath, dialogPassphrase, dialogState)
    }

    /** `App::new`: the keys the scan of the SSH directory finds, the first
        one selected, the key list shown, no wizard and empty dialogs. */
    constructor (sshDir: Path, exportDir: Path, fs: FileSystem, walk: seq<Scan.WalkEntry>)
      ensures Valid()
      ensures this.sshDir == sshDir && this.exportDir == exportDir
      ensures Screen() == (KeyList, Scan.ScanResult(fs.files, sshDir, walk), 0, None)
      ensures WizardFields() == (null, "", "") && Dialogs() == ("", "", "", EnterPath)
    {
      var scanner := new Scan.KeyScanner(sshDir);
      var scanned := scanner.Scan(fs, walk);
      this.sshDir := sshDir;
      this.exportDir := exportDir;
      state := KeyList;
      keys := scanned.value;
      selectedIndex := 0;
      message := None;
      wizard := null;
      wizardInput := "";
      wizardConfirmPassphrase := "";
      exportPath := "";
      importPath := "";
      dialogPassphrase := "";
      dialogState := EnterPath;
    }

    /** `refresh_keys`: the list replaced by a new scan and the selection
        pulled back onto the last key if it fell off the end; with no keys
        the selection is left as it was. */
    method RefreshKeys(fs: FileSystem, walk: seq<Scan.WalkEntry>) returns (r: Result<()>)
      modifies this
      ensures r == Ok(()) && Valid()
      ensures keys == Scan.ScanResult(fs.files, sshDir, walk)
      ensures selectedIndex == if keys != [] && old(selectedIndex) >= |keys| then |keys| - 1 else old(selectedIndex)
      ensures state == old(state) && message == old(message)
      ensures WizardFields() == old(WizardFields()) && Dialogs() == old(Dialogs())
    {
      var scanner := new Scan.KeyScanner(sshDir);
      var scanned := scanner.Scan(fs, walk);
      keys := scanned.value;
      if keys != [] && selectedIndex >= |keys| {
        selectedIndex := |keys| - 1;
      }
      return Ok(());
    }

    method NextKey()
      requires Valid()
      modifies this
      ensures Valid()
      ensures selectedIndex == NextIndex(old(selectedIndex), |keys|)
      ensures state == old(state) && keys == old(keys) && message == old(message)
      ensures WizardFields() == old(WizardFields()) && Dialogs() == old(Dialogs())
    {
      if keys != [] {
        selectedIndex := (selectedIndex + 1) % |keys|;
      }
    }

    method PreviousKey()
      requires Valid()
      modifies this
      ensures Valid()
      ensures selectedIndex == PreviousIndex(old(selectedIndex), |keys|)
      ensures state == old(state) && keys == old(keys) && message == old(message)
      ensures WizardFields() == old(WizardFields()) && Dialogs() == old(Dialogs())
    {
      if keys != [] {
        if selectedIndex == 0 {
          selectedIndex := |keys| - 1;
        } else {
          selectedIndex := selectedIndex - 1;
        }
      }
    }

    /** `get_selected_key`: the selected key when the selection is inside
        the list, otherwise nothing. */
    function GetSelectedKey(): (k: Option<SshKey>)
      reads this
      ensures k.Some? <==> selectedIndex < |keys|
      ensures k.Some? ==> k.value == keys[selectedIndex]
      ensures Valid() && keys != [] ==> k.Some?
    {
      if selectedIndex < |keys| then Some(keys[selectedIndex]) else None
    }

    /** `select_key`: an index inside the list is selected; any other is
        ignored. */
    method SelectKey(index: nat)
      requires Valid()
      modifies this
      ensures Valid()
      ensures selectedIndex == if index < |keys| then index else old(selectedIndex)
      ensures state == old(state) && keys == old(keys) && message == old(message)
      ensures WizardFields() == old(WizardFields()) && Dialogs() == old(Dialogs())
    {
      if index < |keys| {
        selectedIndex := index;
      }
    }

    /** `set_message`: the message dialog shown, remembering where to go
        back to. */
    method SetMessage(text: string, kind: MessageType, returnState: AppState)
      modifies this
      ensures message == Some(Message(text, kind, returnState)) && state == MessageDialog
      ensures keys == old(keys) && selectedIndex == old(selectedIndex)
      ensures WizardFields() == old(WizardFields()) && Dialogs() == old(Dialogs())
    {
      message := Some(Message(text, kind, returnState));
      state := MessageDialog;
    }

    /** `clear_message`: back to the screen the message named, if there was
        a message, and no message any more. */
    method ClearMessage()
      modifies this
      ensures message.None?
      ensures state == if old(message).Some? then old(message).value.returnState else old(state)
      ensures keys == old(keys) && selectedIndex == old(selectedIndex)
      ensures WizardFields() == old(WizardFields()) && Dialogs() == old(Dialogs())
    {
      if message.Some? {
        state := message.value.returnState;
      }
      message := None;
    }

    function ShouldQuit(): (b: bool)
      reads this
      ensures b <==> state == Quit
    {
      state.Quit?
    }

    /** `get_default_export_path`: `ssh_backup_<timestamp>.skm` in the
        export directory, the timestamp being the rendered local time. */
    function DefaultExportPath(timestamp: string): (p: Path)
      ensures var name := "ssh_backup_" + timestamp + "." + BackupFormat.BackupExtension;
              |name| <= |p| && p[|p| - |name|..] == name
    ensures p == JoinPrefix(exportDir) + "ssh_backup_" + timestamp + "." + BackupFormat.BackupExtension
    {
      Join(exportDir, "ssh_backup_" + timestamp + ".skm")
    }

    /** `start_wizard`: a new wizard and both wizard inputs emptied. */
    method StartWizard(userAtHost: string)
      modifies this
      ensures wizard != null && fresh(wizard)
      ensures wizard.step == Wizard.SelectType && wizard.options == Wizard.DefaultOptions(userAtHost)
      ensures wizard.errorMessage.None?
      ensures wizardInput == [] && wizardConfirmPassphrase == []
      ensures Screen() == old(Screen()) && Dialogs() == old(Dialogs())
    {
      wizard := new Wizard.CreateWizard(userAtHost);
      wizardInput := "";
      wizardConfirmPassphrase := "";
    }

    /** `get_wizard_step`. */
    function GetWizardStep(): (s: Option<Wizard.WizardStep>)
      reads this, wizard
      ensures s.Some? <==> wizard != null
      ensures s.Some? ==> s.value == wizard.step
    {
      if wizard == null then None else Some(wizard.step)
    }

    /** `wizard_next`: the typed text handed to the current step, with the
        effect `WizardNextEffect` describes; nothing without a wizard. */
    method WizardNext(userAtHost: string) returns (advanced: bool)
      modifies this, wizard
      ensures wizard == old(wizard)
      ensures old(wizard) == null ==> !advanced && wizardInput == old(wizardInput)
      ensures wizard != null ==>
                (advanced, ViewOf(wizard), wizardInput)
                == WizardNextEffect(old(ViewOf(wizard)), old(wizardInput), wizardConfirmPassphrase, userAtHost)
      ensures wizard != null ==>
                wizard.tempFilename == old(wizard.tempFilename) && wizard.Scratch() == old(wizard.Scratch())
      ensures wizardConfirmPassphrase == old(wizardConfirmPassphrase)
      ensures Screen() == old(Screen()) && Dialogs() == old(Dialogs())
    {
      if wizard == null {
        return false;
      }
      match wizard.step
      case SelectType =>
        advanced := false;
      case EnterFilename =>
        advanced := wizard.SetFilename(wizardInput);
        if advanced {
          wizardInput := "";
          wizard.NextStep();
        }
      case EnterComment =>
        wizard.SetComment(wizardInput, userAtHost);
        wizardInput := "";
        wizard.NextStep();
        advanced := true;
      case EnterPassphrase =>
        advanced := wizard.SetPassphrase(wizardInput, wizardConfirmPassphrase);
        if advanced {
          wizard.NextStep();
        }
      case Confirm =>
        advanced := true;
    }

    /** `wizard_previous`: one step back and both inputs emptied. */
    method WizardPrevious()
      modifies this, wizard
      ensures wizard == old(wizard)
      ensures wizard != null ==>
                wizard.step == Wizard.Previous(old(wizard.step)) && wizard.options == old(wizard.options)
                && wizard.errorMessage == old(wizard.errorMessage)
                && wizard.tempFilename == old(wizard.tempFilename) && wizard.Scratch() == old(wizard.Scratch())
      ensures wizard != null ==> wizardInput == [] && wizardConfirmPassphrase == []
      ensures wizard == null ==>
                wizardInput == old(wizardInput) && wizardConfirmPassphrase == old(wizardConfirmPassphrase)
      ensures Screen() == old(Screen()) && Dialogs() == old(Dialogs())
    {
      if wizard != null {
        wizard.PreviousStep();
        wizardInput := "";
        wizardConfirmPassphrase := "";
      }
    }

    /** `wizard_select_type`: the type chosen and its usual file name put in
        the input for editing. */
    method WizardSelectType(t: KeyType)
      modifies this, wizard
      ensures wizard == old(wizard)
      ensures wizard != null ==>
                wizard.step == Wizard.EnterFilename && wizard.options == old(wizard.options).(keyType := t)
                && wizard.tempFilename == DefaultFilename(t) && wizardInput == DefaultFilename(t)
                && wizard.errorMessage == old(wizard.errorMessage) && wizard.Scratch() == old(wizard.Scratch())
      ensures wizard == null ==> wizardInput == old(wizardInput)
      ensures wizardConfirmPassphrase == old(wizardConfirmPassphrase)
      ensures Screen() == old(Screen()) && Dialogs() == old(Dialogs())
    {
      if wizard != null {
        wizard.SelectType(t);
        wizardInput := wizard.tempFilename;
      }
    }

    /** `get_wizard_error`. */
    function GetWizardError(): (e: Option<string>)
      reads this, wizard
      ensures wizard == null ==> e.None?
      ensures wizard != null ==> e == wizard.errorMessage
    {
      if wizard == null then None else wizard.errorMessage
    }

    /** `clear_wizard_error`. */
    method ClearWizardError()
      modifies wizard
      ensures wizard != null ==>
                wizard.errorMessage.None? && wizard.step == old(wizard.step) && wizard.options == old(wizard.options)
    ensures wizard != null ==>
                wizard.tempFilename == old(wizard.tempFilename) && wizard.Scratch() == old(wizard.Scratch())
    {
      if wizard != null {
        wizard.errorMessage := None;
      }
    }

    /** `end_wizard`: no wizard and both inputs emptied. */
    method EndWizard()
      modifies this
      ensures WizardFields() == (null, "", "")
      ensures Screen() == old(Screen()) && Dialogs() == old(Dialogs())
    {
      wizard := null;
      wizardInput := "";
      wizardConfirmPassphrase := "";
    }

    /** `start_export`: the default export path proposed, the passphrase
        emptied and the dialog at its first field. */
    method StartExport(timestamp: string)
      modifies this
      ensures Dialogs() == (DefaultExportPath(timestamp), old(importPath), "", EnterPath)
      ensures Screen() == old(Screen()) && WizardFields() == old(WizardFields())
    {
      exportPath := DefaultExportPath(timestamp);
      dialogPassphrase := "";
      dialogState := EnterPath;
    }

    /** `start_import`: the path and the passphrase emptied and the dialog
        at its first field. */
    method StartImport()
      modifies this
      ensures Dialogs() == (old(exportPath), "", "", EnterPath)
      ensures Screen() == old(Screen()) && WizardFields() == old(WizardFields())
    {
      importPath := "";
      dialogPassphrase := "";
      dialogState := EnterPath;
    }
  }
}
