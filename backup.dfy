/** The backup engine: export of key records into one encrypted backup file,
    and import of such a file into an SSH directory, entry by entry, with a
    merge decision for keys that already exist and a four-bucket report. */
module Backup {
  import opened Common
  import opened Disk
  import opened Keys
  import opened Encryption
  import opened BackupFormat

  datatype ExportOptions = ExportOptions(
    description: Option<string>,
    includePublicOnly: bool,
    /** `None` exports every key. */
    selectedKeys: Option<seq<string>>)

  const DefaultExportOptions: ExportOptions := ExportOptions(None, false, None)

  /** What to do with an entry whose key already exists. */
  datatype MergeStrategy = SkipExisting | Overwrite | Rename

  datatype ImportOptions = ImportOptions(mergeStrategy: MergeStrategy, dryRun: bool)

  const DefaultImportOptions: ImportOptions := ImportOptions(SkipExisting, false)

  /** `ImportReport`; an error is recorded with the entry's name and the
      error itself. */
  datatype ImportReport = ImportReport(
    imported: seq<string>,
    skipped: seq<string>,
    overwritten: seq<string>,
    errors: seq<(string, SkmError)>)

  const EmptyReport: ImportReport := ImportReport([], [], [], [])

  datatype ImportResult = Imported(name: string) | Skipped(name: string) | Overwritten(name: string)

  /** The outcome of one entry: the entry's name and what became of it. */
  type Outcome = (string, Result<ImportResult>)

  /** What the environment supplies to an export: the local time, host and
      user names, and the random salt of the encryption. */
  datatype ExportEnv = ExportEnv(createdAt: string, hostname: string, username: string, salt: Bytes)

  // ---------------------------------------------------------------- export

  /** `read_file_if_exists`. */
  function ReadIfExists(files: Files, p: Path): (r: Result<Option<Bytes>>)
    ensures p !in files ==> r == Ok(None)
    ensures p in files ==> (r.Ok? <==> files[p].File?)
    ensures p in files && r.Ok? ==> r.value == Some(files[p].data)
    ensures r.Err? ==> r.error.Io?
  {
    if p in files then
      match ReadFile(files, p)
      case Err(e) => Err(e)
      case Ok(data) => Ok(Some(data))
    else Ok(None)
  }

  predicate IsSelected(options: ExportOptions, key: SshKey)
  {
    options.selectedKeys.None? || key.name in options.selectedKeys.value
  }

  /** The entry built for one key: its name, displayed type and comment, the
      private half unless only public halves are exported, and the public
      half, each read when its file exists. Reading a half that is a
      directory fails the export. */
  function MakeEntry(files: Files, key: SshKey, options: ExportOptions): (r: Result<BackupEntry>)
    ensures r.Err? <==> (!options.includePublicOnly && IsDirectory(files, key.path))
                        || IsDirectory(files, key.publicPath)
    ensures r.Ok? ==> r.value.name == key.name && r.value.keyType == KeyTypeName(key.keyType)
                      && r.value.comment == key.comment
    ensures r.Ok? ==> r.value.privateKey
                      == if options.includePublicOnly || key.path !in files then None
                         else Some(files[key.path].data)
    ensures r.Ok? ==> r.value.publicKey
                      == if key.publicPath !in files then None else Some(files[key.publicPath].data)
  {
    var privateKey := if options.includePublicOnly then Ok(None) else ReadIfExists(files, key.path);
    if privateKey.Err? then Err(privateKey.error)
    else
      var publicKey := ReadIfExists(files, key.publicPath);
      if publicKey.Err? then Err(publicKey.error)
      else Ok(BackupEntry(key.name, KeyTypeName(key.keyType), key.comment, privateKey.value, publicKey.value))
  }

  /** The entries of the export loop over a prefix of the keys: unselected
      keys are passed over, and the first read error ends the loop. */
  function CollectEntries(files: Files, keys: seq<SshKey>, options: ExportOptions): Result<seq<BackupEntry>>
  {
    if keys == [] then Ok([])
    else
      match CollectEntries(files, keys[..|keys| - 1], options)
      case Err(e) => Err(e)
      case Ok(entries) =>
        var key := keys[|keys| - 1];
        if !IsSelected(options, key) then Ok(entries)
        else match MakeEntry(files, key, options)
          case Err(e) => Err(e)
          case Ok(entry) => Ok(entries + [entry])
  }

  /** The keys the selection keeps, in input order. */
  function SelectedKeys(keys: seq<SshKey>, options: ExportOptions): (s: seq<SshKey>)
    ensures forall k :: k in s <==> k in keys && IsSelected(options, k)
  {
    if keys == [] then []
    else
      var init := SelectedKeys(keys[..|keys| - 1], options);
      var key := keys[|keys| - 1];
      assert forall k :: k in keys <==> k in keys[..|keys| - 1] || k == key by {
        assert keys == keys[..|keys| - 1] + [key];
      }
      if IsSelected(options, key) then init + [key] else init
  }

  /** Without a selection every key is kept. */
  lemma {:induction false} SelectAllKeys(keys: seq<SshKey>, options: ExportOptions)
    requires options.selectedKeys.None?
    ensures SelectedKeys(keys, options) == keys
  {
    if keys != [] {
      SelectAllKeys(keys[..|keys| - 1], options);
      assert keys == keys[..|keys| - 1] + [keys[|keys| - 1]];
    }
  }

  /** The selection keeps the input order: selecting from a concatenation is
      the concatenation of the selections. */
  lemma {:induction false} SelectedKeysConcat(a: seq<SshKey>, b: seq<SshKey>, options: ExportOptions)
    ensures SelectedKeys(a + b, options) == SelectedKeys(a, options) + SelectedKeys(b, options)
    decreases |b|
  {
    if b == [] {
      assert a + b == a;
    } else {
      var b' := b[..|b| - 1];
      assert (a + b)[..|a + b| - 1] == a + b';
      assert (a + b)[|a + b| - 1] == b[|b| - 1];
      SelectedKeysConcat(a, b', options);
    }
  }

  /** The entries of `keys`, one per key in order, or the error of the
      first key whose entry cannot be built. */
  function MapEntries(files: Files, keys: seq<SshKey>, options: ExportOptions): Result<seq<BackupEntry>>
  {
    if keys == [] then Ok([])
    else
      match MapEntries(files, keys[..|keys| - 1], options)
      case Err(e) => Err(e)
      case Ok(entries) =>
        match MakeEntry(files, keys[|keys| - 1], options)
        case Err(e) => Err(e)
        case Ok(entry) => Ok(entries + [entry])
  }

  /** Mapping succeeds exactly when every key's entry can be built, and
      then entry `i` is built from key `i`. */
  lemma {:induction false} MapEntriesOk(files: Files, keys: seq<SshKey>, options: ExportOptions)
    ensures MapEntries(files, keys, options).Ok? <==>
              forall i :: 0 <= i < |keys| ==> MakeEntry(files, keys[i], options).Ok?
    ensures MapEntries(files, keys, options).Ok? ==>
              var entries := MapEntries(files, keys, options).value;
              && |entries| == |keys|
              && forall i :: 0 <= i < |keys| ==> MakeEntry(files, keys[i], options) == Ok(entries[i])
  {
    if keys != [] {
      var init := keys[..|keys| - 1];
      assert keys == init + [keys[|keys| - 1]];
      MapEntriesOk(files, init, options);
      MapEntriesSnoc(files, init, keys[|keys| - 1], options);
      assert forall j :: 0 <= j < |init| ==> keys[j] == init[j];
    }
  }

  /** A failed mapping reports the error of the first key whose entry
      cannot be built. */
  lemma {:induction false} MapEntriesFirstError(files: Files, keys: seq<SshKey>, options: ExportOptions)
    requires MapEntries(files, keys, options).Err?
    ensures exists i :: && 0 <= i < |keys|
                        && MakeEntry(files, keys[i], options) == Err(MapEntries(files, keys, options).error)
                        && forall j :: 0 <= j < i ==> MakeEntry(files, keys[j], options).Ok?
  {
    var init := keys[..|keys| - 1];
    assert forall j :: 0 <= j < |init| ==> keys[j] == init[j];
    match MapEntries(files, init, options)
    case Err(e) =>
      MapEntriesFirstError(files, init, options);
      var i :| && 0 <= i < |init| && MakeEntry(files, init[i], options) == Err(e)
               && forall j :: 0 <= j < i ==> MakeEntry(files, init[j], options).Ok?;
      assert keys[i] == init[i];
    case Ok(_) =>
      MapEntriesOk(files, init, options);
      assert MakeEntry(files, keys[|init|], options).Err?;
  }

  /** The export loop builds, in order, one entry per selected key. */
  lemma {:induction false} CollectEntriesMapsSelected(files: Files, keys: seq<SshKey>, options: ExportOptions)
    ensures CollectEntries(files, keys, options) == MapEntries(files, SelectedKeys(keys, options), options)
  {
    if keys != [] {
      var init := keys[..|keys| - 1];
      var key := keys[|keys| - 1];
      CollectEntriesMapsSelected(files, init, options);
      var sel := SelectedKeys(init, options);
      if IsSelected(options, key) {
        assert SelectedKeys(keys, options) == sel + [key];
        MapEntriesSnoc(files, sel, key, options);
      } else {
        assert SelectedKeys(keys, options) == sel;
      }
    }
  }

  /** Mapping one more key maps the earlier ones first. */
  lemma MapEntriesSnoc(files: Files, keys: seq<SshKey>, key: SshKey, options: ExportOptions)
    ensures MapEntries(files, keys + [key], options)
         == match MapEntries(files, keys, options)
            case Err(e) => Err(e)
            case Ok(entries) =>
              match MakeEntry(files, key, options)
              case Err(e) => Err(e)
              case Ok(entry) => Ok(entries + [entry])
  {
    var s := keys + [key];
    assert s[..|s| - 1] == keys && s[|s| - 1] == key;
  }

  /** Once a prefix of the keys fails, the whole export fails with the same
      error. */
  lemma {:induction false} CollectEntriesErrorStays(files: Files, keys: seq<SshKey>, options: ExportOptions, n: nat)
    requires n <= |keys|
    requires CollectEntries(files, keys[..n], options).Err?
    ensures CollectEntries(files, keys, options) == CollectEntries(files, keys[..n], options)
    decreases |keys| - n
  {
    if n < |keys| {
      assert keys[..n + 1][..n] == keys[..n];
      CollectEntriesErrorStays(files, keys, options, n + 1);
    } else {
      assert keys[..n] == keys;
    }
  }

  /** The backup written for the given entries. */
  function BackupOf(entries: seq<BackupEntry>, options: ExportOptions, env: ExportEnv): BackupData
  {
    BackupData(
      BackupMetadata(BackupVersion, env.createdAt, env.hostname, env.username, |entries|, options.description),
      entries)
  }

  /** The effect of `BackupManager::export` on the files. */
  function ExportEffect(files: Files, keys: seq<SshKey>, outputPath: Path, passphrase: string,
                        options: ExportOptions, env: ExportEnv): (Result<()>, Files)
    requires |env.salt| == SaltLength
  {
    match CollectEntries(files, keys, options)
    case Err(e) => (Err(e), files)
    case Ok(entries) =>
      var json := Serialize(BackupOf(entries, options, env));
      WriteFile(files, outputPath, EncryptWithPassphrase(json, passphrase, env.salt))
  }

  /** Reading, decrypting and parsing a backup file, as `import` does first. */
  function ReadBackup(files: Files, backupPath: Path, passphrase: string): Result<BackupData>
  {
    var encrypted :- ReadFile(files, backupPath);
    var decrypted :- DecryptWithPassphrase(encrypted, passphrase);
    Deserialize(decrypted)
  }

  /** An export writes the backup file and nothing else; when an entry cannot
      be read, or the output is a directory, nothing is written at all. */
  lemma ExportFrame(files: Files, keys: seq<SshKey>, outputPath: Path, passphrase: string,
                    options: ExportOptions, env: ExportEnv)
    requires |env.salt| == SaltLength
    ensures var (r, files') := ExportEffect(files, keys, outputPath, passphrase, options, env);
            && (forall p :: p != outputPath ==> (p in files' <==> p in files) && (p in files ==> files'[p] == files[p]))
            && (r.Err? ==> files' == files)
            && (r.Ok? <==> CollectEntries(files, keys, options).Ok? && !IsDirectory(files, outputPath))
  {
  }

  /** What an export writes reads back, with the same passphrase, as a
      version 1 backup holding one entry per selected key, in order, whose
      key count is the number of entries and whose description is the one
      given. */
  lemma ExportReadsBack(files: Files, keys: seq<SshKey>, outputPath: Path, passphrase: string,
                        options: ExportOptions, env: ExportEnv)
    requires |env.salt| == SaltLength
    requires ExportEffect(files, keys, outputPath, passphrase, options, env).0.Ok?
    ensures var files' := ExportEffect(files, keys, outputPath, passphrase, options, env).1;
            var entries := CollectEntries(files, keys, options).value;
            && ReadBackup(files', outputPath, passphrase) == Ok(BackupOf(entries, options, env))
            && BackupOf(entries, options, env).metadata.version == 1
            && BackupOf(entries, options, env).metadata.keyCount == |SelectedKeys(keys, options)|
            && BackupOf(entries, options, env).metadata.description == options.description
            && forall i :: 0 <= i < |entries| ==>
                 MakeEntry(files, SelectedKeys(keys, options)[i], options) == Ok(entries[i])
  {
    var entries := CollectEntries(files, keys, options).value;
    var json := Serialize(BackupOf(entries, options, env));
    DecryptEncrypt(json, passphrase, env.salt);
    DeserializeSerialize(BackupOf(entries, options, env));
    CollectEntriesMapsSelected(files, keys, options);
    MapEntriesOk(files, SelectedKeys(keys, options), options);
  }

  /** With `include_public_only` no entry carries a private half. */
  lemma PublicOnlyExport(files: Files, keys: seq<SshKey>, options: ExportOptions)
    requires options.includePublicOnly
    requires CollectEntries(files, keys, options).Ok?
    ensures forall e :: e in CollectEntries(files, keys, options).value ==> e.privateKey.None?
  {
    CollectEntriesMapsSelected(files, keys, options);
    MapEntriesOk(files, SelectedKeys(keys, options), options);
  }

  // ---------------------------------------------------------------- import

  /** The outcomes recorded in a report, in order. */
  function Record(report: ImportReport, o: Outcome): ImportReport
  {
    match o.1
    case Ok(Imported(n)) => report.(imported := report.imported + [n])
    case Ok(Skipped(n)) => report.(skipped := report.skipped + [n])
    case Ok(Overwritten(n)) => report.(overwritten := report.overwritten + [n])
    case Err(e) => report.(errors := report.errors + [(o.0, e)])
  }

  function Tally(outcomes: seq<Outcome>): ImportReport
  {
    if outcomes == [] then EmptyReport
    else Record(Tally(outcomes[..|outcomes| - 1]), outcomes[|outcomes| - 1])
  }

  function ReportSize(r: ImportReport): nat
  {
    |r.imported| + |r.skipped| + |r.overwritten| + |r.errors|
  }

  /** Every outcome lands in exactly one bucket, and the errors bucket is
      empty exactly when no entry failed. */
  lemma {:induction false} TallyCounts(outcomes: seq<Outcome>)
    ensures ReportSize(Tally(outcomes)) == |outcomes|
    ensures Tally(outcomes).errors == [] <==> forall i :: 0 <= i < |outcomes| ==> outcomes[i].1.Ok?
  {
    if outcomes != [] {
      var init := outcomes[..|outcomes| - 1];
      TallyCounts(init);
      assert forall i :: 0 <= i < |init| ==> init[i] == outcomes[i];
    }
  }

  /** Where the dry run puts an entry: only the private path is looked at. */
  function DryRunOutcome(files: Files, sshDir: Path, entry: BackupEntry, strategy: MergeStrategy): (o: Outcome)
    ensures o.0 == entry.name && o.1.Ok?
    ensures Join(sshDir, entry.name) !in files ==> o.1 == Ok(Imported(entry.name))
    ensures Join(sshDir, entry.name) in files ==>
              o.1 == match strategy
                     case SkipExisting => Ok(Skipped(entry.name))
                     case Overwrite => Ok(Overwritten(entry.name))
                     case Rename => Ok(Imported(entry.name + " -> " + entry.name + "_{timestamp}"))
  {
    var targetPath := Join(sshDir, entry.name);
    if targetPath in files then
      match strategy
      case SkipExisting => (entry.name, Ok(Skipped(entry.name)))
      case Overwrite => (entry.name, Ok(Overwritten(entry.name)))
      case Rename => (entry.name, Ok(Imported(entry.name + " -> " + entry.name + "_{timestamp}")))
    else (entry.name, Ok(Imported(entry.name)))
  }

  function DryRunOutcomes(files: Files, sshDir: Path, entries: seq<BackupEntry>, strategy: MergeStrategy): (os: seq<Outcome>)
    ensures |os| == |entries|
    ensures forall i :: 0 <= i < |entries| ==> os[i] == DryRunOutcome(files, sshDir, entries[i], strategy)
  {
    if entries == [] then []
    else DryRunOutcomes(files, sshDir, entries[..|entries| - 1], strategy)
         + [DryRunOutcome(files, sshDir, entries[|entries| - 1], strategy)]
  }

  lemma DryRunStep(files: Files, sshDir: Path, entries: seq<BackupEntry>, strategy: MergeStrategy, i: nat)
    requires i < |entries|
    ensures Tally(DryRunOutcomes(files, sshDir, entries[..i + 1], strategy))
         == Record(Tally(DryRunOutcomes(files, sshDir, entries[..i], strategy)),
                   DryRunOutcome(files, sshDir, entries[i], strategy))
  {
    assert entries[..i + 1][..i] == entries[..i];
    TallyStep(DryRunOutcomes(files, sshDir, entries[..i], strategy), DryRunOutcome(files, sshDir, entries[i], strategy));
  }

  /** How `import_entry` treats an entry, from whether its key exists. */
  datatype Decision = SkipEntry | WriteOriginal | WriteRenamed

  function Decide(present: bool, strategy: MergeStrategy): (d: Decision)
    ensures d == SkipEntry <==> present && strategy == SkipExisting
    ensures d == WriteRenamed <==> present && strategy == Rename
    ensures d == WriteOriginal <==> !present || strategy == Overwrite
  {
    if present then
      match strategy
      case SkipExisting => SkipEntry
      case Rename => WriteRenamed
      case Overwrite => WriteOriginal
    else WriteOriginal
  }

  /** Writes one half when it is present, then sets its mode. */
  function WriteHalf(files: Files, p: Path, data: Option<Bytes>, mode: nat): (r: (Result<()>, Files))
    ensures data.None? ==> r == (Ok(()), files)
    ensures data.Some? ==> (r.0.Ok? <==> !IsDirectory(files, p))
    ensures data.Some? && r.0.Ok? ==> r.1 == files[p := File(data.value, mode)]
    ensures r.0.Err? ==> r.1 == files && r.0.error.Io?
  {
    if data.None? then (Ok(()), files)
    else
      var w := WriteFile(files, p, data.value);
      if w.0.Err? then w
      else SetModeOf(w.1, p, mode)
  }

  /** The private half at `privatePath` with mode 0o600, then the public
      half at `publicPath` with mode 0o644; absent halves are not written,
      and a failed write stops before the public half. */
  function WriteHalves(files: Files, privatePath: Path, publicPath: Path, entry: BackupEntry): (Result<()>, Files)
  {
    var first := WriteHalf(files, privatePath, entry.privateKey, PrivateMode);
    if first.0.Err? then first
    else WriteHalf(first.1, publicPath, entry.publicKey, PublicMode)
  }

  /** Writing the halves fails exactly when a present half would go over a
      directory; only the two paths change; each present half is stored with
      its mode, and an absent half leaves its path as it was. */
  lemma WriteHalvesEffect(files: Files, privatePath: Path, publicPath: Path, entry: BackupEntry)
    ensures var r := WriteHalves(files, privatePath, publicPath, entry);
      && (r.0.Ok? <==> !(entry.privateKey.Some? && IsDirectory(files, privatePath))
                       && !(entry.publicKey.Some? && IsDirectory(files, publicPath)))
      && (r.0.Err? ==> r.0.error.Io?)
      && (forall p :: p != privatePath && p != publicPath ==>
            (p in r.1 <==> p in files) && (p in files ==> r.1[p] == files[p]))
      && (r.0.Ok? && entry.publicKey.Some? ==>
            publicPath in r.1 && r.1[publicPath] == File(entry.publicKey.value, PublicMode))
      && (r.0.Ok? && entry.privateKey.Some? && privatePath != publicPath ==>
            privatePath in r.1 && r.1[privatePath] == File(entry.privateKey.value, PrivateMode))
      && (entry.privateKey.None? && privatePath != publicPath ==>
            (privatePath in r.1 <==> privatePath in files)
            && (privatePath in files ==> r.1[privatePath] == files[privatePath]))
      && (entry.publicKey.None? && privatePath != publicPath ==>
            (publicPath in r.1 <==> publicPath in files)
            && (publicPath in files ==> r.1[publicPath] == files[publicPath]))
      && (entry.privateKey.None? && r.0.Err? ==> r.1 == files)
  {
  }

  /** `write_key_files`: the halves go to `ssh_dir/name` and its
      `with_extension("pub")` path. */
  function WriteKeyFilesEffect(files: Files, sshDir: Path, name: string, entry: BackupEntry): (Result<()>, Files)
  {
    var privatePath := Join(sshDir, name);
    WriteHalves(files, privatePath, PubPath(privatePath), entry)
  }

  /** A key exists when its private or its public file does. */
  predicate KeyExists(files: Files, sshDir: Path, name: string)
  {
    Join(sshDir, name) in files || PubPath(Join(sshDir, name)) in files
  }

  /** The name a renamed entry is written under. */
  function RenamedName(name: string, timestamp: string): (r: string)
    ensures r != name && |r| > |name| && r[..|name|] == name
  {
    name + "_" + timestamp
  }

  /** The effect of `import_entry`; `timestamp` is the rendered local time
      used when the entry is renamed. */
  function ImportEntryEffect(files: Files, sshDir: Path, entry: BackupEntry, strategy: MergeStrategy,
                             timestamp: string): (Result<ImportResult>, Files)
  {
    var present := KeyExists(files, sshDir, entry.name);
    match Decide(present, strategy)
    case SkipEntry => (Ok(Skipped(entry.name)), files)
    case WriteRenamed =>
      var newName := RenamedName(entry.name, timestamp);
      var w := WriteKeyFilesEffect(files, sshDir, newName, entry);
      (if w.0.Err? then Err(w.0.error) else Ok(Imported(newName)), w.1)
    case WriteOriginal =>
      var w := WriteKeyFilesEffect(files, sshDir, entry.name, entry);
      (if w.0.Err? then Err(w.0.error)
       else if present then Ok(Overwritten(entry.name))
       else Ok(Imported(entry.name)), w.1)
  }

  /** The three-way merge: a new key is imported under its name, an existing
      one is skipped without a write, overwritten under its name, or
      imported under the renamed name; a write failure is an I/O error. */
  lemma ImportEntryDecision(files: Files, sshDir: Path, entry: BackupEntry, strategy: MergeStrategy, timestamp: string)
    ensures var (r, files') := ImportEntryEffect(files, sshDir, entry, strategy, timestamp);
            var present := KeyExists(files, sshDir, entry.name);
            && (!present && r.Ok? ==> r.value == Imported(entry.name))
            && (present && strategy == SkipExisting ==> r == Ok(Skipped(entry.name)) && files' == files)
            && (present && strategy == Overwrite && r.Ok? ==> r.value == Overwritten(entry.name))
            && (present && strategy == Rename && r.Ok? ==> r.value == Imported(RenamedName(entry.name, timestamp)))
            && (r.Err? ==> r.error.Io?)
            && (r.Err? && entry.privateKey.None? ==> files' == files)
  {
    var present := KeyExists(files, sshDir, entry.name);
    if !(present && strategy == SkipExisting) {
      var name := if present && strategy == Rename then RenamedName(entry.name, timestamp) else entry.name;
      WriteHalvesFailure(files, Join(sshDir, name), PubPath(Join(sshDir, name)), entry);
    }
  }

  /** A failed write of the halves is an I/O error, and leaves the files
      alone when there is no private half to have written first. */
  lemma WriteHalvesFailure(files: Files, privatePath: Path, publicPath: Path, entry: BackupEntry)
    ensures var r := WriteHalves(files, privatePath, publicPath, entry);
            && (r.0.Err? ==> r.0.error.Io?)
            && (entry.privateKey.None? && r.0.Err? ==> r.1 == files)
  {
  }

  /** Writing the halves changes no other path. */
  lemma WriteHalvesFrame(files: Files, privatePath: Path, publicPath: Path, entry: BackupEntry)
    ensures var files' := WriteHalves(files, privatePath, publicPath, entry).1;
            forall p :: p != privatePath && p != publicPath ==>
              (p in files' <==> p in files) && (p in files ==> files'[p] == files[p])
  {
  }

  /** An import writes only the two paths of the name it writes under. */
  lemma ImportEntryFrame(files: Files, sshDir: Path, entry: BackupEntry, strategy: MergeStrategy, timestamp: string)
    ensures var files' := ImportEntryEffect(files, sshDir, entry, strategy, timestamp).1;
            var name := if KeyExists(files, sshDir, entry.name) && strategy == Rename
                        then RenamedName(entry.name, timestamp) else entry.name;
            forall p :: p != Join(sshDir, name) && p != PubPath(Join(sshDir, name)) ==>
              (p in files' <==> p in files) && (p in files ==> files'[p] == files[p])
  {
    var present := KeyExists(files, sshDir, entry.name);
    if !(present && strategy == SkipExisting) {
      var name := if present && strategy == Rename then RenamedName(entry.name, timestamp) else entry.name;
      WriteHalvesFrame(files, Join(sshDir, name), PubPath(Join(sshDir, name)), entry);
    }
  }

  /** The real import loop over a prefix of the entries, in container
      order; `clock(i)` is the time rendered when entry `i` is handled. */
  function ImportAll(files: Files, sshDir: Path, entries: seq<BackupEntry>, strategy: MergeStrategy,
                     clock: nat -> string): (seq<Outcome>, Files)
  {
    if entries == [] then ([], files)
    else
      var prev := ImportAll(files, sshDir, entries[..|entries| - 1], strategy, clock);
      var entry := entries[|entries| - 1];
      var step := ImportEntryEffect(prev.1, sshDir, entry, strategy, clock(|entries| - 1));
      (prev.0 + [(entry.name, step.0)], step.1)
  }

  /** The names an import report is keyed by, in order. */
  function OutcomeNames(outs: seq<Outcome>): (names: seq<string>)
    ensures |names| == |outs| && forall i :: 0 <= i < |outs| ==> names[i] == outs[i].0
  {
    if outs == [] then [] else OutcomeNames(outs[..|outs| - 1]) + [outs[|outs| - 1].0]
  }

  /** The import records one outcome per entry, in order, under the
      entry's own name. */
  lemma {:induction false} ImportAllNames(files: Files, sshDir: Path, entries: seq<BackupEntry>,
                                          strategy: MergeStrategy, clock: nat -> string)
    ensures OutcomeNames(ImportAll(files, sshDir, entries, strategy, clock).0) == Names(entries)
  {
    if entries != [] {
      var n := |entries| - 1;
      ImportAllNames(files, sshDir, entries[..n], strategy, clock);
      ImportAllStep(files, sshDir, entries, strategy, clock, n);
      assert entries[..n + 1] == entries;
      var outs := ImportAll(files, sshDir, entries, strategy, clock).0;
      assert outs[..n] == ImportAll(files, sshDir, entries[..n], strategy, clock).0;
      NamesSnoc(entries);
    }
  }

  lemma ImportAllStep(files: Files, sshDir: Path, entries: seq<BackupEntry>, strategy: MergeStrategy,
                      clock: nat -> string, i: nat)
    requires i < |entries|
    ensures var prev := ImportAll(files, sshDir, entries[..i], strategy, clock);
            var step := ImportEntryEffect(prev.1, sshDir, entries[i], strategy, clock(i));
            ImportAll(files, sshDir, entries[..i + 1], strategy, clock)
              == (prev.0 + [(entries[i].name, step.0)], step.1)
  {
    assert entries[..i + 1][..i] == entries[..i];
  }

  lemma TallyStep(outcomes: seq<Outcome>, o: Outcome)
    ensures Tally(outcomes + [o]) == Record(Tally(outcomes), o)
  {
    assert (outcomes + [o])[..|outcomes|] == outcomes;
  }

  /** The effect of `BackupManager::import`. */
  function ImportEffect(files: Files, sshDir: Path, backupPath: Path, passphrase: string,
                        options: ImportOptions, clock: nat -> string): (Result<ImportReport>, Files)
  {
    match ReadBackup(files, backupPath, passphrase)
    case Err(e) => (Err(e), files)
    case Ok(backup) =>
      if options.dryRun then
        (Ok(Tally(DryRunOutcomes(files, sshDir, backup.keys, options.mergeStrategy))), files)
      else
        var all := ImportAll(files, sshDir, backup.keys, options.mergeStrategy, clock);
        (Ok(Tally(all.0)), all.1)
  }

  /** A backup that cannot be read, decrypted or parsed aborts the import
      with that error, without a report and without a write. */
  lemma ImportFailsClosed(files: Files, sshDir: Path, backupPath: Path, passphrase: string,
                          options: ImportOptions, clock: nat -> string)
    requires ReadBackup(files, backupPath, passphrase).Err?
    ensures ImportEffect(files, sshDir, backupPath, passphrase, options, clock)
         == (Err(ReadBackup(files, backupPath, passphrase).error), files)
  {
  }

  /** A backup exported under one passphrase and imported under another
      fails with `InvalidPassphrase` and changes nothing. */
  lemma ImportWrongPassphrase(files: Files, sshDir: Path, backupPath: Path, data: Bytes, passphrase: string,
                              salt: Bytes, other: string, options: ImportOptions, clock: nat -> string)
    requires |salt| == SaltLength && other != passphrase
    requires backupPath in files && files[backupPath].File?
    requires files[backupPath].data == EncryptWithPassphrase(data, passphrase, salt)
    ensures ImportEffect(files, sshDir, backupPath, other, options, clock) == (Err(InvalidPassphrase), files)
  {
    WrongPassphraseFails(data, passphrase, salt, other);
  }

  /** Content that decrypts but does not parse aborts with `ImportExport`. */
  lemma ImportUnparsable(files: Files, sshDir: Path, backupPath: Path, passphrase: string,
                         options: ImportOptions, clock: nat -> string)
    requires ReadFile(files, backupPath).Ok?
    requires DecryptWithPassphrase(ReadFile(files, backupPath).value, passphrase).Ok?
    requires Deserialize(DecryptWithPassphrase(ReadFile(files, backupPath).value, passphrase).value).Err?
    ensures var (r, files') := ImportEffect(files, sshDir, backupPath, passphrase, options, clock);
            r.Err? && r.error.ImportExport? && files' == files
  {
  }

  /** A dry run writes nothing, records no error, and puts every entry in
      exactly one bucket. */
  lemma DryRunWritesNothing(files: Files, sshDir: Path, backupPath: Path, passphrase: string,
                            options: ImportOptions, clock: nat -> string)
    requires options.dryRun
    requires ReadBackup(files, backupPath, passphrase).Ok?
    ensures var (r, files') := ImportEffect(files, sshDir, backupPath, passphrase, options, clock);
            && files' == files
            && r.Ok? && r.value.errors == []
            && ReportSize(r.value) == |ReadBackup(files, backupPath, passphrase).value.keys|
  {
    var backup := ReadBackup(files, backupPath, passphrase).value;
    TallyCounts(DryRunOutcomes(files, sshDir, backup.keys, options.mergeStrategy));
  }

  /** Each entry of a real import contributes exactly one element to exactly
      one bucket. */
  lemma ImportReportSize(files: Files, sshDir: Path, backupPath: Path, passphrase: string,
                         options: ImportOptions, clock: nat -> string)
    requires ReadBackup(files, backupPath, passphrase).Ok?
    ensures var r := ImportEffect(files, sshDir, backupPath, passphrase, options, clock).0;
            r.Ok? && ReportSize(r.value) == |ReadBackup(files, backupPath, passphrase).value.keys|
  {
    var backup := ReadBackup(files, backupPath, passphrase).value;
    if options.dryRun {
      TallyCounts(DryRunOutcomes(files, sshDir, backup.keys, options.mergeStrategy));
    } else {
      var outs := ImportAll(files, sshDir, backup.keys, options.mergeStrategy, clock).0;
      ImportAllNames(files, sshDir, backup.keys, options.mergeStrategy, clock);
      assert |outs| == |OutcomeNames(outs)| == |Names(backup.keys)|;
      TallyCounts(outs);
    }
  }

  // ------------------------------------------------ import into a fresh dir

  /** A plain file name: not empty, no separator, no dot. */
  predicate SimpleName(name: string)
  {
    |name| > 0 && '/' !in name && '.' !in name
  }

  function Names(entries: seq<BackupEntry>): (names: seq<string>)
    ensures |names| == |entries| && forall i :: 0 <= i < |entries| ==> names[i] == entries[i].name
  {
    seq(|entries|, i requires 0 <= i < |entries| => entries[i].name)
  }

  lemma NamesSnoc(entries: seq<BackupEntry>)
    requires entries != []
    ensures Names(entries) == Names(entries[..|entries| - 1]) + [entries[|entries| - 1].name]
  {
  }

  /** Every entry has a plain name of its own, and no key of that name is
      in the directory yet. */
  predicate FreshTargets(files: Files, sshDir: Path, entries: seq<BackupEntry>)
  {
    DistinctSimpleNames(entries)
    && forall i :: 0 <= i < |entries| ==> !KeyExists(files, sshDir, entries[i].name)
  }

  /** Plain, pairwise distinct names, none of which is a key in the
      directory yet. */
  predicate FreshNames(files: Files, sshDir: Path, names: seq<string>)
  {
    && (forall i :: 0 <= i < |names| ==> SimpleName(names[i]) && !KeyExists(files, sshDir, names[i]))
    && (forall i, j :: 0 <= i < j < |names| ==> names[i] != names[j])
  }

  lemma FreshTargetsOfNames(files: Files, sshDir: Path, entries: seq<BackupEntry>)
    requires FreshNames(files, sshDir, Names(entries))
    ensures FreshTargets(files, sshDir, entries)
  {
  }

  predicate DistinctSimpleNames(entries: seq<BackupEntry>)
  {
    && (forall i :: 0 <= i < |entries| ==> SimpleName(entries[i].name))
    && (forall i, j :: 0 <= i < j < |entries| ==> entries[i].name != entries[j].name)
  }

  /** The two paths an entry is imported to. */
  function TargetPaths(sshDir: Path, entries: seq<BackupEntry>): set<Path>
  {
    if entries == [] then {}
    else
      var p := Join(sshDir, entries[|entries| - 1].name);
      TargetPaths(sshDir, entries[..|entries| - 1]) + {p, PubPath(p)}
  }

  /** The entry's halves are on disk under its name with their modes, and a
      half the entry lacks is not there. */
  predicate Installed(files: Files, sshDir: Path, entry: BackupEntry)
  {
    var p := Join(sshDir, entry.name);
    && (entry.privateKey.Some? ==> p in files && files[p] == File(entry.privateKey.value, PrivateMode))
    && (entry.privateKey.None? ==> p !in files)
    && (entry.publicKey.Some? ==> PubPath(p) in files && files[PubPath(p)] == File(entry.publicKey.value, PublicMode))
    && (entry.publicKey.None? ==> PubPath(p) !in files)
  }

  /** Two dotless names after the same prefix, with or without ".pub",
      give the same text only when they are the same name with the same
      ending. */
  lemma DotlessSuffixesDistinct(pre: string, a: string, b: string)
    requires '.' !in a && '.' !in b
    ensures pre + a != pre + a + ".pub"
    ensures a != b ==> pre + a != pre + b && pre + a != pre + b + ".pub" && pre + a + ".pub" != pre + b + ".pub"
  {
    if a != b {
      assert (pre + a)[|pre|..] == a;
      assert (pre + b)[|pre|..] == b;
      assert (pre + b + ".pub")[|pre|..] == b + ".pub";
      assert (pre + a + ".pub")[..|pre + a|] == pre + a;
      assert (pre + b + ".pub")[..|pre + b|] == pre + b;
      assert (b + ".pub")[|b|] == '.';
    }
  }

  /** Distinct plain names never share a path, and a plain name's two paths
      differ. */
  lemma KeyPathsDistinct(sshDir: Path, a: string, b: string)
    requires SimpleName(a) && SimpleName(b)
    ensures Join(sshDir, a) != PubPath(Join(sshDir, a))
    ensures a != b ==> Join(sshDir, a) != Join(sshDir, b) && Join(sshDir, a) != PubPath(Join(sshDir, b))
                       && PubPath(Join(sshDir, a)) != PubPath(Join(sshDir, b))
  {
    JoinRelative(sshDir, a);
    JoinRelative(sshDir, b);
    PubPathOfDotlessName(sshDir, a);
    PubPathOfDotlessName(sshDir, b);
    DotlessSuffixesDistinct(JoinPrefix(sshDir), a, b);
  }

  lemma {:induction false} TargetPathsOfEntries(sshDir: Path, entries: seq<BackupEntry>, p: Path)
    requires p in TargetPaths(sshDir, entries)
    ensures exists i :: 0 <= i < |entries| && (p == Join(sshDir, entries[i].name) || p == PubPath(Join(sshDir, entries[i].name)))
  {
    if entries != [] {
      var init := entries[..|entries| - 1];
      var q := Join(sshDir, entries[|entries| - 1].name);
      if p !in {q, PubPath(q)} {
        TargetPathsOfEntries(sshDir, init, p);
        var i :| 0 <= i < |init| && (p == Join(sshDir, init[i].name) || p == PubPath(Join(sshDir, init[i].name)));
        assert init[i] == entries[i];
      }
    }
  }

  /** The last entry's paths are not among the earlier entries' paths. */
  lemma LastTargetsAreNew(sshDir: Path, entries: seq<BackupEntry>)
    requires entries != []
    requires DistinctSimpleNames(entries)
    ensures var q := Join(sshDir, entries[|entries| - 1].name);
            q !in TargetPaths(sshDir, entries[..|entries| - 1])
            && PubPath(q) !in TargetPaths(sshDir, entries[..|entries| - 1])
  {
    var init := entries[..|entries| - 1];
    var e := entries[|entries| - 1];
    var q := Join(sshDir, e.name);
    forall p | p in TargetPaths(sshDir, init)
      ensures p != q && p != PubPath(q)
    {
      TargetPathsOfEntries(sshDir, init, p);
      var i :| 0 <= i < |init| && (p == Join(sshDir, init[i].name) || p == PubPath(Join(sshDir, init[i].name)));
      assert init[i] == entries[i];
      KeyPathsDistinct(sshDir, init[i].name, e.name);
      KeyPathsDistinct(sshDir, e.name, init[i].name);
    }
  }

  /** One fresh entry is imported under its own name and installed, and
      nothing but its two paths changes. */
  lemma ImportFreshEntry(files: Files, sshDir: Path, entry: BackupEntry, strategy: MergeStrategy, timestamp: string)
    requires SimpleName(entry.name) && !KeyExists(files, sshDir, entry.name)
    ensures var (r, files') := ImportEntryEffect(files, sshDir, entry, strategy, timestamp);
            var q := Join(sshDir, entry.name);
            && r == Ok(Imported(entry.name))
            && Installed(files', sshDir, entry)
            && forall p :: p != q && p != PubPath(q) ==> SameAt(files, files', p)
  {
    var q := Join(sshDir, entry.name);
    KeyPathsDistinct(sshDir, entry.name, entry.name);
    WriteHalvesEffect(files, q, PubPath(q), entry);
  }

  /** An installed entry stays installed when its two paths do not change. */
  lemma InstalledKept(files: Files, files': Files, sshDir: Path, entry: BackupEntry)
    requires Installed(files, sshDir, entry)
    requires SameAt(files, files', Join(sshDir, entry.name))
    requires SameAt(files, files', PubPath(Join(sshDir, entry.name)))
    ensures Installed(files', sshDir, entry)
  {
  }

  /** The report step of `ImportAllFresh`. */
  lemma FreshStepReport(entries: seq<BackupEntry>, outs: seq<Outcome>)
    requires entries != []
    requires Tally(outs) == ImportReport(Names(entries[..|entries| - 1]), [], [], [])
    ensures var name := entries[|entries| - 1].name;
            Tally(outs + [(name, Ok(Imported(name)))]) == ImportReport(Names(entries), [], [], [])
  {
    var name := entries[|entries| - 1].name;
    TallyStep(outs, (name, Ok(Imported(name))));
    NamesSnoc(entries);
  }

  /** The installation step of `ImportAllFresh`: the earlier entries stay
      installed, since the last entry's paths are not theirs. */
  lemma FreshStepInstalled(mid: Files, files': Files, sshDir: Path, entries: seq<BackupEntry>)
    requires entries != [] && DistinctSimpleNames(entries)
    requires var init := entries[..|entries| - 1];
             forall i :: 0 <= i < |init| ==> Installed(mid, sshDir, init[i])
    requires Installed(files', sshDir, entries[|entries| - 1])
    requires var q := Join(sshDir, entries[|entries| - 1].name);
             forall p :: p != q && p != PubPath(q) ==> SameAt(mid, files', p)
    ensures forall i :: 0 <= i < |entries| ==> Installed(files', sshDir, entries[i])
  {
    var e := entries[|entries| - 1];
    forall i | 0 <= i < |entries| - 1
      ensures Installed(files', sshDir, entries[i])
    {
      assert entries[..|entries| - 1][i] == entries[i];
      KeyPathsDistinct(sshDir, entries[i].name, e.name);
      KeyPathsDistinct(sshDir, e.name, entries[i].name);
      InstalledKept(mid, files', sshDir, entries[i]);
    }
  }

  /** The frame step of `ImportAllFresh`. */
  lemma FreshStepFrame(files: Files, mid: Files, files': Files, sshDir: Path, entries: seq<BackupEntry>)
    requires entries != []
    requires forall p :: p !in TargetPaths(sshDir, entries[..|entries| - 1]) ==> SameAt(files, mid, p)
    requires var q := Join(sshDir, entries[|entries| - 1].name);
             forall p :: p != q && p != PubPath(q) ==> SameAt(mid, files', p)
    ensures forall p :: p !in TargetPaths(sshDir, entries) ==> SameAt(files, files', p)
  {
    forall p | p !in TargetPaths(sshDir, entries)
      ensures SameAt(files, files', p)
    {
      var q := Join(sshDir, entries[|entries| - 1].name);
      assert TargetPaths(sshDir, entries) == TargetPaths(sshDir, entries[..|entries| - 1]) + {q, PubPath(q)};
      assert SameAt(files, mid, p);
      assert SameAt(mid, files', p);
    }
  }

  lemma FreshTargetsPrefix(files: Files, sshDir: Path, entries: seq<BackupEntry>)
    requires entries != [] && FreshTargets(files, sshDir, entries)
    ensures FreshTargets(files, sshDir, entries[..|entries| - 1])
  {
    assert forall i :: 0 <= i < |entries| - 1 ==> entries[..|entries| - 1][i] == entries[i];
  }

  /** The last entry is still fresh after the earlier ones were imported,
      since they changed only their own paths. */
  lemma LastIsFresh(files: Files, mid: Files, sshDir: Path, entries: seq<BackupEntry>)
    requires entries != [] && FreshTargets(files, sshDir, entries)
    requires forall p :: p !in TargetPaths(sshDir, entries[..|entries| - 1]) ==> SameAt(files, mid, p)
    ensures !KeyExists(mid, sshDir, entries[|entries| - 1].name)
  {
    var q := Join(sshDir, entries[|entries| - 1].name);
    LastTargetsAreNew(sshDir, entries);
    assert SameAt(files, mid, q) && SameAt(files, mid, PubPath(q));
  }

  /** Each entry imported under its own name, in order, with no skip,
      overwrite or error; each installed; nothing else changed. */
  ghost predicate FreshImportResult(files: Files, sshDir: Path, entries: seq<BackupEntry>, outs: seq<Outcome>, files': Files)
  {
    && Tally(outs) == ImportReport(Names(entries), [], [], [])
    && (forall i :: 0 <= i < |entries| ==> Installed(files', sshDir, entries[i]))
    && (forall p :: p !in TargetPaths(sshDir, entries) ==> SameAt(files, files', p))
  }

  /** The last step of a fresh import: after the earlier entries, the last
      one is still fresh, so it is imported under its own name, installed,
      and only its two paths change. */
  lemma FreshLastStep(files: Files, sshDir: Path, entries: seq<BackupEntry>,
                      strategy: MergeStrategy, clock: nat -> string)
    requires entries != [] && FreshTargets(files, sshDir, entries)
    ensures var n := |entries|;
            var prev := ImportAll(files, sshDir, entries[..n - 1], strategy, clock);
            var all := ImportAll(files, sshDir, entries, strategy, clock);
            var q := Join(sshDir, entries[n - 1].name);
            && all.0 == prev.0 + [(entries[n - 1].name, Ok(Imported(entries[n - 1].name)))]
            && Installed(all.1, sshDir, entries[n - 1])
            && forall p :: p != q && p != PubPath(q) ==> SameAt(prev.1, all.1, p)
    decreases |entries|, 0
  {
    var n := |entries|;
    var prev := ImportAll(files, sshDir, entries[..n - 1], strategy, clock);
    FreshTargetsPrefix(files, sshDir, entries);
    ImportAllFreshFrame(files, sshDir, entries[..n - 1], strategy, clock);
    LastIsFresh(files, prev.1, sshDir, entries);
    ImportFreshEntry(prev.1, sshDir, entries[n - 1], strategy, clock(n - 1));
    ImportAllStep(files, sshDir, entries, strategy, clock, n - 1);
    assert entries[..n] == entries;
  }

  /** Importing fresh entries changes only their target paths. */
  lemma {:induction false} ImportAllFreshFrame(files: Files, sshDir: Path, entries: seq<BackupEntry>,
                                               strategy: MergeStrategy, clock: nat -> string)
    requires FreshTargets(files, sshDir, entries)
    ensures forall p :: p !in TargetPaths(sshDir, entries) ==>
              SameAt(files, ImportAll(files, sshDir, entries, strategy, clock).1, p)
    decreases |entries|, 1
  {
    if entries != [] {
      var init := entries[..|entries| - 1];
      FreshTargetsPrefix(files, sshDir, entries);
      ImportAllFreshFrame(files, sshDir, init, strategy, clock);
      FreshLastStep(files, sshDir, entries, strategy, clock);
      FreshStepFrame(files, ImportAll(files, sshDir, init, strategy, clock).1,
                     ImportAll(files, sshDir, entries, strategy, clock).1, sshDir, entries);
    }
  }

  /** Importing fresh entries reports each as imported under its own name. */
  lemma {:induction false} ImportAllFreshReport(files: Files, sshDir: Path, entries: seq<BackupEntry>,
                                                strategy: MergeStrategy, clock: nat -> string)
    requires FreshTargets(files, sshDir, entries)
    ensures Tally(ImportAll(files, sshDir, entries, strategy, clock).0) == ImportReport(Names(entries), [], [], [])
  {
    if entries != [] {
      var n := |entries|;
      var prev := ImportAll(files, sshDir, entries[..n - 1], strategy, clock);
      FreshTargetsPrefix(files, sshDir, entries);
      ImportAllFreshReport(files, sshDir, entries[..n - 1], strategy, clock);
      FreshLastStep(files, sshDir, entries, strategy, clock);
      FreshStepReport(entries, prev.0);
    }
  }

  /** Importing fresh entries installs each of them. */
  lemma {:induction false} ImportAllFreshInstalled(files: Files, sshDir: Path, entries: seq<BackupEntry>,
                                                   strategy: MergeStrategy, clock: nat -> string)
    requires FreshTargets(files, sshDir, entries)
    ensures forall i :: 0 <= i < |entries| ==>
              Installed(ImportAll(files, sshDir, entries, strategy, clock).1, sshDir, entries[i])
  {
    if entries != [] {
      var n := |entries|;
      var init := entries[..n - 1];
      var prev := ImportAll(files, sshDir, init, strategy, clock);
      FreshTargetsPrefix(files, sshDir, entries);
      ImportAllFreshInstalled(files, sshDir, init, strategy, clock);
      FreshLastStep(files, sshDir, entries, strategy, clock);
      FreshStepInstalled(prev.1, ImportAll(files, sshDir, entries, strategy, clock).1, sshDir, entries);
    }
  }

  /** Importing entries with fresh plain names into a directory imports each
      of them under its own name, in order, with no skip, overwrite or
      error; each ends up installed with its modes, and no other path
      changes. */
  lemma ImportAllFresh(files: Files, sshDir: Path, entries: seq<BackupEntry>,
                       strategy: MergeStrategy, clock: nat -> string)
    requires FreshTargets(files, sshDir, entries)
    ensures FreshImportResult(files, sshDir, entries, ImportAll(files, sshDir, entries, strategy, clock).0,
                              ImportAll(files, sshDir, entries, strategy, clock).1)
  {
    ImportAllFreshFrame(files, sshDir, entries, strategy, clock);
    ImportAllFreshReport(files, sshDir, entries, strategy, clock);
    ImportAllFreshInstalled(files, sshDir, entries, strategy, clock);
  }

  /** A real import of a readable backup whose entries have fresh plain
      names imports every entry under its own name, in order, with no skip,
      overwrite or error, installs each with its modes, and changes no other
      path. */
  lemma ImportFreshBackup(files: Files, sshDir: Path, backupPath: Path, passphrase: string,
                          options: ImportOptions, clock: nat -> string)
    requires !options.dryRun
    requires ReadBackup(files, backupPath, passphrase).Ok?
    requires FreshTargets(files, sshDir, ReadBackup(files, backupPath, passphrase).value.keys)
    ensures var entries := ReadBackup(files, backupPath, passphrase).value.keys;
            var (r, files') := ImportEffect(files, sshDir, backupPath, passphrase, options, clock);
            && r == Ok(ImportReport(Names(entries), [], [], []))
            && (forall i :: 0 <= i < |entries| ==> Installed(files', sshDir, entries[i]))
            && (forall p :: p !in TargetPaths(sshDir, entries) ==> SameAt(files, files', p))
  {
    ImportAllFresh(files, sshDir, ReadBackup(files, backupPath, passphrase).value.keys, options.mergeStrategy, clock);
  }

  /** The names of keys, in order. */
  function KeyNames(keys: seq<SshKey>): seq<string>
  {
    seq(|keys|, i requires 0 <= i < |keys| => keys[i].name)
  }

  /** The halves key `k` had in `files` are in `imported` under its name in
      `sshDir`, with modes 0o600 and 0o644; the private half only when
      private halves were exported. */
  predicate KeyRestored(files: Files, imported: Files, sshDir: Path, k: SshKey, publicOnly: bool)
  {
    var p := Join(sshDir, k.name);
    && (!publicOnly && k.path in files && files[k.path].File? ==>
          p in imported && imported[p] == File(files[k.path].data, PrivateMode))
    && (k.publicPath in files && files[k.publicPath].File? ==>
          PubPath(p) in imported && imported[PubPath(p)] == File(files[k.publicPath].data, PublicMode))
  }

  /** Export followed by import: keys exported with a passphrase and then
      imported with it into a directory that holds none of their names come
      back as one imported name per selected key, in order, with no skip,
      overwrite or error, and each key's private half (unless only public
      halves were exported) and public half land on disk with modes 0o600
      and 0o644. */
  lemma ExportImportRoundTrip(files: Files, keys: seq<SshKey>, outputPath: Path, passphrase: string,
                              exportOptions: ExportOptions, env: ExportEnv,
                              sshDir: Path, importOptions: ImportOptions, clock: nat -> string)
    requires |env.salt| == SaltLength
    requires !importOptions.dryRun
    requires ExportEffect(files, keys, outputPath, passphrase, exportOptions, env).0.Ok?
    requires FreshNames(ExportEffect(files, keys, outputPath, passphrase, exportOptions, env).1, sshDir,
                        KeyNames(SelectedKeys(keys, exportOptions)))
    ensures var selected := SelectedKeys(keys, exportOptions);
            var exported := ExportEffect(files, keys, outputPath, passphrase, exportOptions, env).1;
            var result := ImportEffect(exported, sshDir, outputPath, passphrase, importOptions, clock);
            && result.0 == Ok(ImportReport(KeyNames(selected), [], [], []))
            && forall i :: 0 <= i < |selected| ==>
                 KeyRestored(files, result.1, sshDir, selected[i], exportOptions.includePublicOnly)
  {
    var selected := SelectedKeys(keys, exportOptions);
    var exported := ExportEffect(files, keys, outputPath, passphrase, exportOptions, env).1;
    var entries := CollectEntries(files, keys, exportOptions).value;
    assert ReadBackup(exported, outputPath, passphrase) == Ok(BackupOf(entries, exportOptions, env)) by {
      ExportReadsBack(files, keys, outputPath, passphrase, exportOptions, env);
    }
    assert |entries| == |selected|
           && forall i :: 0 <= i < |entries| ==> MakeEntry(files, selected[i], exportOptions) == Ok(entries[i]) by {
      CollectEntriesMapsSelected(files, keys, exportOptions);
      MapEntriesOk(files, selected, exportOptions);
    }
    assert Names(entries) == KeyNames(selected);
    FreshTargetsOfNames(exported, sshDir, entries);
    ImportFreshBackup(exported, sshDir, outputPath, passphrase, importOptions, clock);
    var imported := ImportEffect(exported, sshDir, outputPath, passphrase, importOptions, clock).1;
    forall i | 0 <= i < |selected|
      ensures KeyRestored(files, imported, sshDir, selected[i], exportOptions.includePublicOnly)
    {
      InstalledRestores(files, imported, sshDir, selected[i], entries[i], exportOptions);
    }
  }

  /** An installed entry made from a key restores that key's halves. */
  lemma InstalledRestores(files: Files, imported: Files, sshDir: Path, k: SshKey, e: BackupEntry,
                          options: ExportOptions)
    requires MakeEntry(files, k, options) == Ok(e)
    requires Installed(imported, sshDir, e)
    ensures KeyRestored(files, imported, sshDir, k, options.includePublicOnly)
  {
  }

  // ------------------------------------------------------------- findings

  /** Path `p` is the same in both states: absent from both, or holding the
      same node. */
  predicate SameAt(files: Files, files': Files, p: Path)
  {
    (p in files' <==> p in files) && (p in files ==> files'[p] == files[p])
  }

  /** Which report bucket an outcome lands in, ignoring the name. */
  predicate SameBucket(a: Result<ImportResult>, b: Result<ImportResult>)
  {
    match (a, b)
    case (Ok(Imported(_)), Ok(Imported(_))) => true
    case (Ok(Skipped(_)), Ok(Skipped(_))) => true
    case (Ok(Overwritten(_)), Ok(Overwritten(_))) => true
    case (Err(_), Err(_)) => true
    case _ => false
  }

  /** The dry run, as written, only looks at the private path, while the
      import also counts an existing public file: a directory holding only
      `id.pub` previews `id` as imported and then skips it. */
  lemma DryRunMissesPublicOnlyKey()
    ensures var files: Files := map["/home/u/.ssh/id.pub" := File([1], PublicMode)];
            var entry := BackupEntry("id", "ED25519", None, Some([2]), Some([3]));
            && DryRunOutcome(files, "/home/u/.ssh", entry, SkipExisting).1 == Ok(Imported("id"))
            && ImportEntryEffect(files, "/home/u/.ssh", entry, SkipExisting, "20240101_120000").0 == Ok(Skipped("id"))
  {
    var files: Files := map["/home/u/.ssh/id.pub" := File([1], PublicMode)];
    var entry := BackupEntry("id", "ED25519", None, Some([2]), Some([3]));
    assert Join("/home/u/.ssh", "id") == "/home/u/.ssh/id";
    PubPathOfDotlessName("/home/u/.ssh", "id");
    assert PubPath("/home/u/.ssh/id") == "/home/u/.ssh/id.pub";
    assert "/home/u/.ssh/id" != "/home/u/.ssh/id.pub";
    assert "/home/u/.ssh/id" !in files;
    assert KeyExists(files, "/home/u/.ssh", "id");
  }

  /** The dry run as evidently intended: the same existence test as the
      import. */
  function DryRunOutcomeIntended(files: Files, sshDir: Path, entry: BackupEntry, strategy: MergeStrategy): (o: Outcome)
    ensures o.0 == entry.name && o.1.Ok?
  {
    if KeyExists(files, sshDir, entry.name) then
      match strategy
      case SkipExisting => (entry.name, Ok(Skipped(entry.name)))
      case Overwrite => (entry.name, Ok(Overwritten(entry.name)))
      case Rename => (entry.name, Ok(Imported(entry.name + " -> " + entry.name + "_{timestamp}")))
    else (entry.name, Ok(Imported(entry.name)))
  }

  /** The intended preview puts each entry in the bucket the import puts it
      in whenever the import's writes succeed, and under the same name
      except for a rename. */
  lemma DryRunIntendedAgreesWithImport(files: Files, sshDir: Path, entry: BackupEntry, strategy: MergeStrategy,
                                       timestamp: string)
    requires ImportEntryEffect(files, sshDir, entry, strategy, timestamp).0.Ok?
    ensures var actual := ImportEntryEffect(files, sshDir, entry, strategy, timestamp).0;
            var preview := DryRunOutcomeIntended(files, sshDir, entry, strategy).1;
            && SameBucket(preview, actual)
            && (strategy != Rename || !KeyExists(files, sshDir, entry.name) ==> preview == actual)
  {
  }

  /** A rename, as written, derives the public path from the new name with
      `with_extension("pub")`; when the original name has an extension the
      timestamp only lengthens it, so the renamed public half lands on the
      original key's public path. */
  lemma RenameReusesPublicPath(sshDir: Path, name: string, timestamp: string)
    requires HasExtension(Join(sshDir, name))
    requires '.' !in timestamp && '/' !in timestamp
    ensures PubPath(Join(sshDir, RenamedName(name, timestamp))) == PubPath(Join(sshDir, name))
  {
    var suffix := "_" + timestamp;
    RenameSuffixIsPlain(timestamp);
    assert RenamedName(name, timestamp) == name + suffix;
    JoinExtend(sshDir, name, suffix);
    PubPathIgnoresPlainSuffix(Join(sshDir, name), suffix);
  }

  /** The text a rename appends holds no dot or separator when the timestamp
      holds none. */
  lemma RenameSuffixIsPlain(timestamp: string)
    requires '.' !in timestamp && '/' !in timestamp
    ensures '.' !in "_" + timestamp && '/' !in "_" + timestamp
  {
    assert forall k :: 0 <= k < |"_" + timestamp| ==> ("_" + timestamp)[k] == '_' || ("_" + timestamp)[k] in timestamp;
  }

  /** Consequently a renamed import of an entry whose key exists and whose
      name has an extension replaces the existing key's public file. */
  lemma RenameOverwritesExistingPublicKey(files: Files, sshDir: Path, entry: BackupEntry, timestamp: string)
    requires HasExtension(Join(sshDir, entry.name))
    requires '.' !in timestamp && '/' !in timestamp
    requires KeyExists(files, sshDir, entry.name) && entry.publicKey.Some?
    requires ImportEntryEffect(files, sshDir, entry, Rename, timestamp).0.Ok?
    ensures var files' := ImportEntryEffect(files, sshDir, entry, Rename, timestamp).1;
            var original := PubPath(Join(sshDir, entry.name));
            original in files' && files'[original] == File(entry.publicKey.value, PublicMode)
  {
    var p := Join(sshDir, RenamedName(entry.name, timestamp));
    RenameReusesPublicPath(sshDir, entry.name, timestamp);
    WriteHalvesEffect(files, p, PubPath(p), entry);
  }

  /** `import_entry` as evidently intended: a renamed entry's public half
      goes to the new name with ".pub" appended. */
  function ImportEntryEffectIntended(files: Files, sshDir: Path, entry: BackupEntry, strategy: MergeStrategy,
                                     timestamp: string): (Result<ImportResult>, Files)
  {
    var present := KeyExists(files, sshDir, entry.name);
    match Decide(present, strategy)
    case SkipEntry => (Ok(Skipped(entry.name)), files)
    case WriteRenamed =>
      var newName := RenamedName(entry.name, timestamp);
      var p := Join(sshDir, newName);
      var w := WriteHalves(files, p, p + ".pub", entry);
      (if w.0.Err? then Err(w.0.error) else Ok(Imported(newName)), w.1)
    case WriteOriginal =>
      var w := WriteKeyFilesEffect(files, sshDir, entry.name, entry);
      (if w.0.Err? then Err(w.0.error)
       else if present then Ok(Overwritten(entry.name))
       else Ok(Imported(entry.name)), w.1)
  }

  /** The renamed paths never meet the original key's paths, for any name
      and timestamp. */
  lemma RenamedPathsAvoidOriginal(sshDir: Path, name: string, timestamp: string)
    ensures var p := Join(sshDir, name);
            var p' := Join(sshDir, RenamedName(name, timestamp));
            && p' != p && p' != PubPath(p) && p' + ".pub" != p && p' + ".pub" != PubPath(p)
  {
    var p := Join(sshDir, name);
    var suffix := "_" + timestamp;
    assert RenamedName(name, timestamp) == name + suffix;
    JoinExtend(sshDir, name, suffix);
    PubPathShape(p);
    ExtendedPathIsNew(p, suffix, PubPath(p));
  }

  /** A path extended by text starting with '_', with or without ".pub"
      after it, is neither the path itself nor a path that ends in ".pub" and
      is at most four characters longer. */
  lemma ExtendedPathIsNew(p: string, suffix: string, q: string)
    requires |suffix| > 0 && suffix[0] == '_'
    requires |q| >= 4 && q[|q| - 4..] == ".pub" && |q| - 4 <= |p|
    ensures p + suffix != p && p + suffix != q && p + suffix + ".pub" != p && p + suffix + ".pub" != q
  {
    var e := p + suffix;
    if |e| == |q| {
      var k := |p| - (|q| - 4);
      assert e[|p|] == '_';
      assert q[|p|] == q[|q| - 4..][k];
      assert q[|p|] in ".pub";
    }
  }

  /** With the intended rename, an existing key's two files are left exactly
      as they were. */
  lemma RenameIntendedKeepsOriginal(files: Files, sshDir: Path, entry: BackupEntry, timestamp: string)
    requires KeyExists(files, sshDir, entry.name)
    ensures var files' := ImportEntryEffectIntended(files, sshDir, entry, Rename, timestamp).1;
            var p := Join(sshDir, entry.name);
            SameAt(files, files', p) && SameAt(files, files', PubPath(p))
  {
    var p' := Join(sshDir, RenamedName(entry.name, timestamp));
    RenamedPathsAvoidOriginal(sshDir, entry.name, timestamp);
    WriteHalvesFrame(files, p', p' + ".pub", entry);
  }

  // -------------------------------------------------------------- manager

  /** `BackupManager`: exports from and imports into one SSH directory. */
  class BackupManager {
    const sshDir: Path

    constructor (sshDir: Path)
      ensures this.sshDir == sshDir
    {
      this.sshDir := sshDir;
    }

    /** The body of the export loop for one selected key: its private half
        (unless only public halves are exported), then its public half. */
    method ReadEntry(fs: FileSystem, key: SshKey, options: ExportOptions) returns (r: Result<BackupEntry>)
      ensures r == MakeEntry(fs.files, key, options)
    {
      var privateKey: Result<Option<Bytes>> := Ok(None);
      if !options.includePublicOnly {
        privateKey := ReadFileIfExists(fs, key.path);
      }
      if privateKey.Err? {
        return Err(privateKey.error);
      }
      var publicKey := ReadFileIfExists(fs, key.publicPath);
      if publicKey.Err? {
        return Err(publicKey.error);
      }
      return Ok(BackupEntry(key.name, KeyTypeName(key.keyType), key.comment, privateKey.value, publicKey.value));
    }

    method ReadFileIfExists(fs: FileSystem, p: Path) returns (r: Result<Option<Bytes>>)
      ensures r == ReadIfExists(fs.files, p)
    {
      if fs.Exists(p) {
        var data := fs.Read(p);
        if data.Err? {
          return Err(data.error);
        }
        return Ok(Some(data.value));
      }
      return Ok(None);
    }

    /** The entry-collecting loop of `BackupManager::export`: one entry per
        selected key, in order, stopping at the first read error. */
    method CollectBackupEntries(fs: FileSystem, keys: seq<SshKey>, options: ExportOptions)
      returns (r: Result<seq<BackupEntry>>)
      ensures r == CollectEntries(fs.files, keys, options)
    {
      var backupKeys: seq<BackupEntry> := [];
      var i := 0;
      while i < |keys|
        invariant 0 <= i <= |keys|
        invariant CollectEntries(fs.files, keys[..i], options) == Ok(backupKeys)
      {
        var key := keys[i];
        assert keys[..i + 1][..i] == keys[..i];
        if IsSelected(options, key) {
          var entry := ReadEntry(fs, key, options);
          if entry.Err? {
            CollectEntriesErrorStays(fs.files, keys, options, i + 1);
            return Err(entry.error);
          }
          backupKeys := backupKeys + [entry.value];
        }
        i := i + 1;
      }
      assert keys[..|keys|] == keys;
      return Ok(backupKeys);
    }

    /** `BackupManager::export`. */
    method Export(fs: FileSystem, keys: seq<SshKey>, outputPath: Path, passphrase: string,
                  options: ExportOptions, env: ExportEnv) returns (r: Result<()>)
      requires |env.salt| == SaltLength
      modifies fs
      ensures (r, fs.files) == ExportEffect(old(fs.files), keys, outputPath, passphrase, options, env)
    {
      var backupKeys := CollectBackupEntries(fs, keys, options);
      if backupKeys.Err? {
        return Err(backupKeys.error);
      }
      var backup := BackupOf(backupKeys.value, options, env);
      var json := Serialize(backup);
      var encrypted := EncryptWithPassphrase(json, passphrase, env.salt);
      r := fs.Write(outputPath, encrypted);
    }

    /** `BackupManager::write_key_files`. */
    method WriteKeyFiles(fs: FileSystem, name: string, entry: BackupEntry) returns (r: Result<()>)
      modifies fs
      ensures (r, fs.files) == WriteKeyFilesEffect(old(fs.files), sshDir, name, entry)
    {
      var privatePath := Join(sshDir, name);
      var publicPath := PubPath(privatePath);
      if entry.privateKey.Some? {
        r := fs.Write(privatePath, entry.privateKey.value);
        if r.Err? {
          return;
        }
        r := fs.SetMode(privatePath, PrivateMode);
        if r.Err? {
          return;
        }
      }
      if entry.publicKey.Some? {
        r := fs.Write(publicPath, entry.publicKey.value);
        if r.Err? {
          return;
        }
        r := fs.SetMode(publicPath, PublicMode);
        if r.Err? {
          return;
        }
      }
      r := Ok(());
    }

    /** `BackupManager::import_entry`. */
    method ImportEntry(fs: FileSystem, entry: BackupEntry, strategy: MergeStrategy, timestamp: string)
      returns (r: Result<ImportResult>)
      modifies fs
      ensures (r, fs.files) == ImportEntryEffect(old(fs.files), sshDir, entry, strategy, timestamp)
    {
      ghost var before := fs.files;
      var privatePath := Join(sshDir, entry.name);
      var publicPath := PubPath(privatePath);
      var present := fs.Exists(privatePath) || fs.Exists(publicPath);
      assert present == KeyExists(before, sshDir, entry.name);
      if present {
        match strategy {
          case SkipExisting =>
            assert Decide(present, strategy) == SkipEntry;
            return Ok(Skipped(entry.name));
          case Rename =>
            assert Decide(present, strategy) == WriteRenamed;
            var newName := RenamedName(entry.name, timestamp);
            var w := WriteKeyFiles(fs, newName, entry);
            if w.Err? {
              return Err(w.error);
            }
            return Ok(Imported(newName));
          case Overwrite =>
        }
      }
      assert Decide(present, strategy) == WriteOriginal;
      var w := WriteKeyFiles(fs, entry.name, entry);
      if w.Err? {
        return Err(w.error);
      }
      if present {
        r := Ok(Overwritten(entry.name));
      } else {
        r := Ok(Imported(entry.name));
      }
    }

    /** What the dry run reports for one entry: only whether the private
        path exists is looked at. */
    method DryRunEntry(fs: FileSystem, entry: BackupEntry, strategy: MergeStrategy)
      returns (outcome: Result<ImportResult>)
      ensures (entry.name, outcome) == DryRunOutcome(fs.files, sshDir, entry, strategy)
    {
      var targetPath := Join(sshDir, entry.name);
      if fs.Exists(targetPath) {
        match strategy {
          case SkipExisting => outcome := Ok(Skipped(entry.name));
          case Overwrite => outcome := Ok(Overwritten(entry.name));
          case Rename => outcome := Ok(Imported(entry.name + " -> " + entry.name + "_{timestamp}"));
        }
      } else {
        outcome := Ok(Imported(entry.name));
      }
    }

    /** The dry-run loop of `import`: reports what would happen and writes
      nothing. */
    method DryRun(fs: FileSystem, entries: seq<BackupEntry>, strategy: MergeStrategy)
      returns (report: ImportReport)
      ensures report == Tally(DryRunOutcomes(fs.files, sshDir, entries, strategy))
    {
      report := EmptyReport;
      var i := 0;
      while i < |entries|
        invariant 0 <= i <= |entries|
        invariant report == Tally(DryRunOutcomes(fs.files, sshDir, entries[..i], strategy))
      {
        var outcome := DryRunEntry(fs, entries[i], strategy);
        DryRunStep(fs.files, sshDir, entries, strategy, i);
        report := Record(report, (entries[i].name, outcome));
        i := i + 1;
      }
      assert entries[..|entries|] == entries;
    }

    /** The import loop of `import`: every entry is imported in turn and its
      outcome recorded; a failed entry does not stop the loop. */
    method ImportEntries(fs: FileSystem, entries: seq<BackupEntry>, strategy: MergeStrategy,
                         clock: nat -> string) returns (report: ImportReport)
      modifies fs
      ensures var all := ImportAll(old(fs.files), sshDir, entries, strategy, clock);
              report == Tally(all.0) && fs.files == all.1
    {
      ghost var initial := fs.files;
      report := EmptyReport;
      var i := 0;
      while i < |entries|
        invariant 0 <= i <= |entries|
        invariant fs.files == ImportAll(initial, sshDir, entries[..i], strategy, clock).1
        invariant report == Tally(ImportAll(initial, sshDir, entries[..i], strategy, clock).0)
      {
        var entry := entries[i];
        ghost var prev := ImportAll(initial, sshDir, entries[..i], strategy, clock);
        ghost var step := ImportEntryEffect(prev.1, sshDir, entry, strategy, clock(i));
        var result := ImportEntry(fs, entry, strategy, clock(i));
        assert result == step.0 && fs.files == step.1;
        ImportAllStep(initial, sshDir, entries, strategy, clock, i);
        TallyStep(prev.0, (entry.name, result));
        report := Record(report, (entry.name, result));
        i := i + 1;
      }
      assert entries[..|entries|] == entries;
    }

    /** `BackupManager::import`; `clock(i)` is the time rendered when entry
      `i` is handled. */
    method Import(fs: FileSystem, backupPath: Path, passphrase: string, options: ImportOptions,
                  clock: nat -> string) returns (r: Result<ImportReport>)
      modifies fs
      ensures (r, fs.files) == ImportEffect(old(fs.files), sshDir, backupPath, passphrase, options, clock)
    {
      var encrypted := fs.Read(backupPath);
      if encrypted.Err? {
        return Err(encrypted.error);
      }
      var decrypted := DecryptWithPassphrase(encrypted.value, passphrase);
      if decrypted.Err? {
        return Err(decrypted.error);
      }
      var parsed := Deserialize(decrypted.value);
      if parsed.Err? {
        return Err(parsed.error);
      }
      var backup := parsed.value;
      var report;
      if options.dryRun {
        report := DryRun(fs, backup.keys, options.mergeStrategy);
      } else {
        report := ImportEntries(fs, backup.keys, options.mergeStrategy, clock);
      }
      return Ok(report);
    }
  }
}
