# ssh-key-manager in Dafny

A model of the core of `skm`, an SSH key manager with a terminal interface
and a command line. It covers:

- **Listing keys** (`KeyScanner`, `SshKey`). A one-level walk of the SSH
  directory becomes a list of keys sorted by name. Public halves, directories
  and the well-known non-key files are skipped. An entry that resolves to an
  already seen path is skipped too. Each key carries its type (guessed from
  the file name), its status (which halves exist) and the fingerprint and
  comment read from its public half. A key's comment can be rewritten.
- **Encrypted backups** (`BackupManager`). Export reads the selected keys into
  a backup document. The document is serialised, encrypted with a passphrase
  and written to a file. Import reads the file, decrypts and parses it. It
  then previews the result (dry run) or installs every entry under a merge
  strategy: skip, overwrite, or rename with a timestamp. It reports what
  happened to each entry.
- **The terminal interface.** This covers the text field with its cursor,
  the five-step key-creation wizard, and the application state: cyclic key
  selection, the message dialog and its return screen, the wizard glue, and
  the export and import dialog resets.
- **The command line's conversions**: the argument enums mapped to key types
  and merge strategies.

The filesystem is a map from full path to node, where a node is either a
regular file (its bytes and mode) or a directory. The class
`Disk.FileSystem` holds it. Every operation that touches the disk is a
method on that object and is specified by a function of the old map. The
proofs are stated on those functions:

- the export/import round trip;
- what a fresh import installs and what it leaves alone;
- what a failed import leaves (nothing changed);
- what a dry run leaves (nothing changed, one report line per entry).

`PathBuf::join` and `Path::with_extension("pub")` are modelled on strings,
because two of the findings below hinge on them.

Files:

- `common.dfy`: errors, results, bytes.
- `disk.dfy`: paths and the filesystem.
- `wire.dfy` and `backup_format.dfy`: the backup document and its codec.
- `encrypt.dfy`: passphrase encryption.
- `keys.dfy`: `SshKey`.
- `scan.dfy`: `KeyScanner`.
- `backup.dfy`: `BackupManager`.
- `input.dfy`, `wizard.dfy` and `app.dfy`: the terminal interface.
- `cli.dfy`: the command-line arguments.

## Model

| member | source | states |
|---|---|---|
| Disk.JoinEndsWithName | src/crypto/backup.rs:205 | the joined path ends with the name; an absolute name replaces the directory |
| Disk.JoinExtend | src/crypto/backup.rs:218 | joining `name + suffix` is joining `name` and appending the suffix, for a suffix that does not start a new root |
| Disk.JoinRelative | src/crypto/backup.rs:205 | a relative name is appended to the directory followed by one separator (none added when the directory already ends in one) |
| Disk.PubPathShape | src/crypto/backup.rs:206 | the result ends in ".pub" and keeps the path up to the extension of its last component; only an extension dot with no separator after it is cut |
| Disk.PubPathIsStemPub | src/ssh/keys.rs:94-101 | the public path is the directory part, the file stem and ".pub", so it agrees with the key's name |
| Disk.FileStem | src/ssh/keys.rs:94-98 | the stem is the start of the last component and holds no separator; what follows it is nothing or one extension: a dot with no further dot, after a non-empty stem |
| Disk.LastIndexOf | src/ssh/keys.rs:94-101 | the index of the last occurrence of the character, -1 when there is none; the component start and extension dot of `file_stem` and `with_extension` are found with it |
| Disk.PubPathOfDotlessName | src/crypto/backup.rs:239-240 | for a name without a dot the public path is the key path with ".pub" appended |
| Disk.PubPathIgnoresPlainSuffix | src/crypto/backup.rs:218 | text without dot or separator appended to a path that has an extension leaves its public path unchanged |
| Disk.ReadFile | src/crypto/backup.rs:156 | succeeds exactly on a regular file and returns its bytes |
| Disk.WriteFile | src/crypto/backup.rs:244 | fails only on a directory, the one write failure modelled (a missing parent is not), and then changes nothing; otherwise the path holds the data and no other path changes |
| Disk.SetModeOf | src/crypto/backup.rs:248-250 | fails exactly on a missing path; a regular file gets the new mode, anything else is left as it is |
| Disk.FileSystem.Exists | src/crypto/backup.rs:270 | true exactly for a path string present in the map, file or directory (no normalisation: see Left out) |
| Disk.FileSystem.Read | src/crypto/backup.rs:156 | returns what `ReadFile` says of the current files |
| Disk.FileSystem.Write | src/crypto/backup.rs:244 | result and new files are those `WriteFile` gives |
| Disk.FileSystem.SetMode | src/crypto/backup.rs:248-250 | result and new files are those `SetModeOf` gives |
| Encryption.EncryptWithPassphrase | src/crypto/encrypt.rs:10-26 | the envelope is longer than the data plus the salt |
| Encryption.EnvelopeLayout | src/crypto/encrypt.rs:10-26 | an envelope is the fixed header, the passphrase stanza, the salt, then the payload |
| Encryption.DecryptWithPassphrase | src/crypto/encrypt.rs:29-48 | every failure is `InvalidPassphrase` or an `Encryption` error; success only on input that starts with the header and whose stanza names this passphrase |
| Encryption.DecryptEncrypt | src/crypto/encrypt.rs:29-48 | decrypting with the same passphrase gives the data back |
| Encryption.WrongPassphraseFails | src/crypto/encrypt.rs:39-41 | any other passphrase fails with `InvalidPassphrase` |
| Encryption.ForeignInputIsFormatError | src/crypto/encrypt.rs:30-31 | input without the header fails with an `Encryption` error |
| Encryption.FreshSaltFreshEnvelope | src/crypto/encrypt.rs:11 | two different salts give two different envelopes for the same data |
| BackupFormat.Deserialize | src/crypto/backup.rs:162-163 | every parse failure is an `ImportExport` error |
| BackupFormat.DeserializeSerialize | src/crypto/backup.rs:135-136 | parsing a serialised backup gives it back |
| BackupFormat.SerializeInjective | src/crypto/backup.rs:135-136 | distinct backups serialise differently |
| BackupFormat.EmptyIsNotABackup | src/crypto/backup.rs:162-163 | the empty input is rejected with an `ImportExport` error |
| Keys.KeyTypeName | src/ssh/keys.rs:18-28 | every display name is non-empty |
| Keys.KeyTypeNameInjective | src/ssh/keys.rs:18-28 | the five display names are pairwise distinct |
| Keys.Contains | src/ssh/keys.rs:32-38 | true exactly when the pattern occurs at some index |
| Keys.EcdsaNameIsNeverDsa | src/ssh/keys.rs:31-43 | a name holding "ecdsa" also holds "dsa" but is never classified DSA |
| Keys.DsaClassification | src/ssh/keys.rs:31-43 | DSA exactly when the name holds "dsa" and none of "ecdsa", "rsa", "ed25519" |
| Keys.FromDefaultFilename | src/ssh/keys.rs:45-53 | every type's default file name is classified as that type |
| Keys.ClassifyEd25519 | src/ssh/keys.rs:216 | "id_ed25519" is ED25519 |
| Keys.ClassifyEcdsa | src/ssh/keys.rs:217 | "id_ecdsa" is ECDSA, despite holding "dsa" |
| Keys.ClassifyDsa | src/ssh/keys.rs:218 | "id_dsa" is DSA |
| Keys.ClassifyUnknown | src/ssh/keys.rs:51 | "id_unknown", the default name of the Unknown type, is Unknown |
| Keys.ClassifyUnknownTested | src/ssh/keys.rs:219 | "unknown" is Unknown |
| Keys.UnknownClassification | src/ssh/keys.rs:31-43 | a name is Unknown exactly when it contains none of "rsa", "ed25519", "ecdsa", "dsa" |
| Keys.ClassifyEd25519Name | src/ssh/keys.rs:31-43 | any name holding "ed25519" and no 'r' is ED25519 |
| Keys.ClassifyEcdsaName | src/ssh/keys.rs:31-43 | any name holding "ecdsa" and neither 'r' nor '2' is ECDSA |
| Keys.ClassifyDsaName | src/ssh/keys.rs:31-43 | any name holding "dsa" and neither 'r' nor 'e' is DSA |
| Keys.ClassifyUnknownName | src/ssh/keys.rs:31-43 | any name with none of 'r', 'e', 's' is Unknown |
| Keys.DefaultFilename | src/ssh/keys.rs:45-53 | every default name is "id_" and more, without separator or dot, so it names a file directly in the SSH directory |
| Keys.DetermineStatus | src/ssh/keys.rs:136-150 | the status is never `Encrypted` |
| Keys.StatusRecordsPresence | src/ssh/keys.rs:136-150 | the status records exactly which halves exist: nothing is lost |
| Keys.WordLength | src/ssh/keys.rs:154 | the first word is the longest whitespace-free prefix |
| Keys.Tokens | src/ssh/keys.rs:154 | every token is non-empty and free of whitespace |
| Keys.TokensOfJoinSpace | src/ssh/keys.rs:159 | splitting tokens joined with single spaces gives the tokens back |
| Keys.PublicKeyInfo | src/ssh/keys.rs:152-167 | a fingerprint exactly with two or more whitespace-separated fields: the first min(16, length) characters of the second field, then "..."; a comment exactly with three or more fields: the third field onward joined by single spaces, which splits back into those fields |
| Keys.Utf8Char | src/ssh/keys.rs:196-197 | an ASCII character is one byte; any other starts with a byte of 0x80 or more |
| Keys.Utf8Encode | src/ssh/keys.rs:196-197 | ASCII text encodes to one byte per character |
| Keys.DecodeText | src/ssh/keys.rs:153 | decoded text is ASCII with one character per byte |
| Keys.DecodeEncode | src/ssh/keys.rs:192-197 | ASCII text written and read back is unchanged |
| Keys.ReadText | src/ssh/keys.rs:153 | text is read only from a readable file whose bytes decode to it |
| Keys.ParsePublicKey | src/ssh/keys.rs:152-167 | succeeds exactly when the public path is a regular file whose bytes decode as text; the pair is then `PublicKeyInfo` of that text |
| Keys.FromPath | src/ssh/keys.rs:92-134 | path kept; name is the file stem; public path is `with_extension("pub")` of the path, i.e. directory part + stem + ".pub"; type from the name; `Valid` exactly when both halves exist; fingerprint and comment are what parsing the public half gives when it exists and parses, and none otherwise |
| Keys.FromPathStatusAgrees | src/ssh/keys.rs:169-175 | the status agrees with `has_private` and `has_public` on the same disk |
| Keys.ReadPublicContent | src/ssh/keys.rs:177-183 | `None` without a public half, otherwise the text read from it or the read error |
| Keys.FromPathReadsPublicHalf | src/ssh/keys.rs:116-120 | a key with a fingerprint got it, with its comment, from parsing its public half |
| Keys.UpdateComment | src/ssh/keys.rs:185-205 | result and new files are those `CommentUpdate` gives |
| Keys.CommentUpdateFailures | src/ssh/keys.rs:186-204 | a missing public half is `KeyNotFound`; fewer than two fields is `InvalidKeyFormat`; both leave the disk as it was |
| Keys.CommentUpdateReparses | src/ssh/keys.rs:195-199 | after an update only the public half changed; reading it back gives the same fingerprint and the new comment |
| Keys.CommentUpdateReadsBack | src/ssh/keys.rs:192-197 | the public half is rewritten to its first two fields and the new comment, separated by single spaces |
| Scan.FileName | src/ssh/scan.rs:38 | the last component holds no separator |
| Scan.AnyPatternMatches | src/ssh/scan.rs:80-86 | true exactly when one of the patterns matches |
| Scan.NonKeyFileNames | src/ssh/scan.rs:70-87 | the non-key files are the five fixed names and every "agent." name; bare "agent" is not one |
| Scan.IsNonKeyFile | src/ssh/scan.rs:70-87 | true exactly for the five fixed names and any name starting with "agent." |
| Scan.IsCandidate | src/ssh/scan.rs:34-48 | an entry becomes a key exactly when it is not a directory, its file name does not end in ".pub", is none of the five fixed names and does not start with "agent." |
| Scan.Collect | src/ssh/scan.rs:50-57 | as many keys as resolved paths recorded (which keys: `CollectOnePerPath`) |
| Scan.CollectStep | src/ssh/scan.rs:50-57 | an entry adds its key exactly when it is the first candidate of its resolved path, otherwise nothing |
| Scan.FirstsOfPathsAreFirsts | src/ssh/scan.rs:50-54 | the listed positions are in walk order and each holds the first candidate of its resolved path |
| Scan.FirstsOfPathsComplete | src/ssh/scan.rs:50-54 | every entry that is the first candidate of its resolved path is listed |
| Scan.EveryPathHasAFirst | src/ssh/scan.rs:50-54 | every resolved path of a candidate has a first candidate in the walk |
| Scan.CollectFirsts | src/ssh/scan.rs:50-57 | the keys gathered are `from_path` of the listed first entries, in walk order |
| Scan.CollectKeysAreFirsts | src/ssh/scan.rs:50-57 | the t-th key gathered is `from_path` of the t-th first-of-its-path candidate |
| Scan.FirstsOfPathsDistinct | src/ssh/scan.rs:51-54 | no two listed entries share a resolved path |
| Scan.FirstsOfPathsCover | src/ssh/scan.rs:51-54 | every resolved path of a candidate is that of a listed entry |
| Scan.CollectOnePerPath | src/ssh/scan.rs:32-57 | the keys gathered are `from_path` of candidate entries with pairwise distinct resolved paths, each the first candidate of its path in the walk, in walk order, and every resolved candidate path gives exactly one key |
| Scan.CollectTakesEveryCandidate | src/ssh/scan.rs:32-54 | the resolved paths recorded are exactly those of the candidate entries |
| Scan.CollectKeysFromCandidates | src/ssh/scan.rs:56-57 | every key collected is `from_path` of a candidate entry of the walk |
| Scan.LexLeqTotal | src/ssh/scan.rs:65 | the name order is total |
| Scan.LexLeqAntisymmetric | src/ssh/scan.rs:65 | the name order is antisymmetric |
| Scan.LexLeqTransitive | src/ssh/scan.rs:65 | the name order is transitive |
| Scan.Named | src/ssh/scan.rs:91 | keeps only keys with the given name |
| Scan.InsertPermutes | src/ssh/scan.rs:65 | inserting adds exactly that key and loses none |
| Scan.InsertSorted | src/ssh/scan.rs:65 | inserting into a list ordered by name keeps it ordered |
| Scan.NamedOfInsert | src/ssh/scan.rs:65 | inserting into a sorted list puts the key after every key of the same name |
| Scan.SortByNameSortsAndPermutes | src/ssh/scan.rs:65 | the sort orders by name and is a permutation |
| Scan.SortByNameIsStable | src/ssh/scan.rs:65 | keys with equal names keep their walk order (`sort_by` is stable) |
| Scan.FirstNamed | src/ssh/scan.rs:91 | finds a key of that name from the list, `None` exactly when there is none |
| Scan.FirstNamedIsHeadOfNamed | src/ssh/scan.rs:91 | the key found is the first of those with the name |
| Scan.FindFollowsWalkOrder | src/ssh/scan.rs:89-92 | looking up a name in the sorted list finds the key the walk met first |
| Scan.ScanResultProperties | src/ssh/scan.rs:18-68 | the scan is sorted by name and is a permutation of the deduplicated keys of `CollectOnePerPath`, so as many keys as resolved candidate paths, each from a candidate entry |
| Scan.ScanResult | src/ssh/scan.rs:18-68 | empty when the SSH directory is missing; always sorted by name (the rest is in `ScanResultProperties`) |
| Scan.KeyScanner.constructor | src/ssh/scan.rs:12-16 | the scanner keeps the directory it was given |
| Scan.KeyScanner.Scan | src/ssh/scan.rs:18-68 | returns the scan result: empty for a missing directory, otherwise the collected keys sorted by name |
| Scan.KeyScanner.FindKeyByName | src/ssh/scan.rs:89-92 | the first key of that name in the scan result |
| Scan.KeyScanner.GetKeyCount | src/ssh/scan.rs:94-96 | the length of the scan result |
| Backup.ReadIfExists | src/crypto/backup.rs:269-275 | a missing path is `None`; a present one is read, failing with `Io` exactly on a directory |
| Backup.MakeEntry | src/crypto/backup.rs:107-117 | fails exactly when a half it must read is a directory; name, type text and comment copied; no private half when exporting public halves only |
| Backup.SelectedKeys | src/crypto/backup.rs:99-105 | a key is kept exactly when it is listed and selected |
| Backup.SelectAllKeys | src/crypto/backup.rs:101 | without a selection every key is exported |
| Backup.SelectedKeysConcat | src/crypto/backup.rs:99-105 | selection distributes over concatenation, so order is kept |
| Backup.MapEntriesOk | src/crypto/backup.rs:99-120 | the export succeeds exactly when every selected key's entry can be made, and then holds one entry per key, in order |
| Backup.MapEntriesFirstError | src/crypto/backup.rs:99-120 | a failed export reports the error of the first key whose entry cannot be made |
| Backup.MapEntriesSnoc | src/crypto/backup.rs:99-120 | one more key either fails with the earlier error, fails with its own, or adds its entry at the end |
| Backup.CollectEntriesMapsSelected | src/crypto/backup.rs:97-120 | the export loop makes an entry for each selected key, in order |
| Backup.CollectEntriesErrorStays | src/crypto/backup.rs:114-116 | the first read error ends the export with that error |
| Backup.BackupManager.CollectBackupEntries | src/crypto/backup.rs:97-120 | the loop yields exactly `CollectEntries` of the current files: the entries of the selected keys in order, or the first read error |
| Backup.ExportFrame | src/crypto/backup.rs:90-146 | of `ExportEffect`: only the output path can change; a failed export changes nothing; it succeeds exactly when every entry can be read and the output is not a directory (the one write failure modelled) |
| Backup.ExportReadsBack | src/crypto/backup.rs:122-143 | after a successful `ExportEffect` the written file decrypts and parses to the backup: version 1, key count = number of selected keys, the description, one entry per selected key |
| Backup.PublicOnlyExport | src/crypto/backup.rs:111-113 | a public-only export holds no private half |
| Backup.TallyCounts | src/crypto/backup.rs:192-199 | one report line per entry; no errors exactly when every entry succeeded |
| Backup.DryRunOutcome | src/crypto/backup.rs:174-186 | never an error; absent → imported; present → skipped, overwritten or "name -> name_{timestamp}" by strategy |
| Backup.DryRunOutcomes | src/crypto/backup.rs:174-187 | one outcome per entry, in order |
| Backup.DryRunStep | src/crypto/backup.rs:174-187 | the preview report grows by one entry's outcome per iteration |
| Backup.Decide | src/crypto/backup.rs:209-229 | skip exactly when present under `SkipExisting`; rename exactly when present under `Rename`; otherwise write under the original name |
| Backup.WriteHalf | src/crypto/backup.rs:243-263 | an absent half writes nothing; a present one fails exactly on a directory (the one write failure modelled), else installs the data with the mode |
| Backup.WriteHalvesEffect | src/crypto/backup.rs:238-267 | fails exactly when a present half targets a directory (an `Io` error; the one write failure modelled); only the two key paths change; installed halves have modes 0o600 and 0o644; absent halves leave their path alone |
| Backup.WriteHalvesFailure | src/crypto/backup.rs:238-267 | `WriteHalves` and so `WriteKeyFilesEffect` fail only with `Io`; with no private half a failure changes nothing |
| Backup.WriteHalvesFrame | src/crypto/backup.rs:238-267 | writing the halves changes no path but the two key paths |
| Backup.RenamedName | src/crypto/backup.rs:217-218 | the new name extends the old one and differs from it |
| Backup.ImportEntryDecision | src/crypto/backup.rs:204-236 | `ImportEntryEffect`: absent → `Imported(name)`; present: skip without writing, `Overwritten(name)`, or `Imported(name_timestamp)`; errors are `Io` |
| Backup.ImportEntryFrame | src/crypto/backup.rs:204-236 | only the chosen name's key and public path strings can change (per path string: see Left out) |
| Backup.ImportAllNames | src/crypto/backup.rs:192-199 | `ImportAll`: one outcome per backup entry, named after it, in order |
| Backup.ImportAllStep | src/crypto/backup.rs:192-199 | each iteration imports one entry against the files the previous ones left |
| Backup.TallyStep | src/crypto/backup.rs:193-198 | each outcome lands in its own list of the report |
| Backup.ImportFailsClosed | src/crypto/backup.rs:156-163 | `ImportEffect`: an unreadable, undecryptable or unparsable backup fails with that error and changes nothing |
| Backup.ImportWrongPassphrase | src/crypto/backup.rs:159 | a backup opened with another passphrase fails with `InvalidPassphrase` and changes nothing |
| Backup.ImportUnparsable | src/crypto/backup.rs:162-163 | a decrypted document that does not parse fails with `ImportExport` and changes nothing |
| Backup.DryRunWritesNothing | src/crypto/backup.rs:172-189 | a dry run changes no file and reports every entry, with no errors |
| Backup.ImportReportSize | src/crypto/backup.rs:165-201 | the report has one line per backup entry |
| Backup.Names | src/crypto/backup.rs:194 | the entries' names, in order |
| Backup.NamesSnoc | src/crypto/backup.rs:194 | the name list grows with the entry list |
| Backup.FreshTargetsOfNames | src/crypto/backup.rs:209 | fresh, distinct, plain names give fresh target paths |
| Backup.KeyPathsDistinct | src/crypto/backup.rs:205-206 | distinct plain names never share a key path or a public path |
| Backup.ImportFreshEntry | src/crypto/backup.rs:229-235 | an entry whose paths are free is installed and reported imported; only its two paths change |
| Backup.ImportAllFresh | src/crypto/backup.rs:191-199 | importing entries with fresh distinct names reports each imported, installs each, and changes no other path |
| Backup.FreshLastStep | src/crypto/backup.rs:191-199 | with fresh targets, `ImportAll`'s last entry is reported imported, installed, and nothing else changes in that step |
| Backup.LastIsFresh | src/crypto/backup.rs:209 | an entry whose paths no earlier import touched does not exist on disk (`KeyExists` is false) |
| Backup.ImportAllFreshReport | src/crypto/backup.rs:191-199 | with fresh targets the report lists every entry name as imported, and nothing else |
| Backup.ImportAllFreshInstalled | src/crypto/backup.rs:191-199 | with fresh targets every entry is installed after `ImportAll` |
| Backup.ImportAllFreshFrame | src/crypto/backup.rs:191-199 | with fresh targets `ImportAll` changes no path outside the entries' target paths |
| Backup.ImportFreshBackup | src/crypto/backup.rs:149-202 | a readable backup with fresh names imports every entry and touches nothing else |
| Backup.ExportImportRoundTrip | src/crypto/backup.rs:90-202 | for keys whose names are non-empty, plain (no '.' and no '/', so "github.com" is excluded) and pairwise distinct, a successful export imported (not as a dry run) with the same passphrase into a directory holding none of those names reports every selected key imported and restores each key's halves, the private one with mode 0o600 unless public-only |
| Backup.InstalledRestores | src/crypto/backup.rs:107-117 | an installed entry made from a key restores that key's halves and modes |
| Backup.DryRunMissesPublicOnlyKey | src/crypto/backup.rs:175-176 | an existing lone public half: the dry run says imported, the import says skipped |
| Backup.DryRunOutcomeIntended | src/crypto/backup.rs:209 | never an error, named after the entry |
| Backup.DryRunIntendedAgreesWithImport | src/crypto/backup.rs:172-236 | the corrected preview puts each successful entry in the same report list as the import, with the same text except a rename's timestamp |
| Backup.RenameReusesPublicPath | src/crypto/backup.rs:218-240 | for a name with an extension, the renamed key's public path is the original key's public path |
| Backup.RenameOverwritesExistingPublicKey | src/crypto/backup.rs:216-221 | importing under `Rename` over such a key replaces the existing public half |
| Backup.RenamedPathsAvoidOriginal | src/crypto/backup.rs:218 | the renamed path and that path + ".pub" differ from the original's key and public paths |
| Backup.RenameIntendedKeepsOriginal | src/crypto/backup.rs:216-221 | `ImportEntryEffectIntended`, the corrected rename, leaves the existing key's two files untouched |
| Backup.BackupManager.constructor | src/crypto/backup.rs:83-87 | the manager keeps its SSH directory |
| Backup.BackupManager.ReadFileIfExists | src/crypto/backup.rs:269-275 | returns `ReadIfExists` of the current files |
| Backup.BackupManager.ReadEntry | src/crypto/backup.rs:107-117 | one selected key's entry is exactly `MakeEntry` of the current files: its error, or its halves as read |
| Backup.BackupManager.Export | src/crypto/backup.rs:90-146 | result and new files are those the export effect gives |
| Backup.BackupManager.WriteKeyFiles | src/crypto/backup.rs:238-267 | result and new files are those of writing both halves under the name |
| Backup.BackupManager.ImportEntry | src/crypto/backup.rs:204-236 | result and new files are those of the entry import effect |
| Backup.BackupManager.DryRunEntry | src/crypto/backup.rs:174-186 | one entry's preview is exactly `DryRunOutcome` of the current files |
| Backup.BackupManager.DryRun | src/crypto/backup.rs:172-189 | the report tallies each entry's preview; no file changes |
| Backup.BackupManager.ImportEntries | src/crypto/backup.rs:191-201 | the report tallies the entries imported one after another; the files are what the last import left |
| Backup.BackupManager.Import | src/crypto/backup.rs:149-202 | result and new files are those the import effect gives |
| Input.InsertAt | src/tui/components/input.rs:38 | one longer, `c` at the cursor, the rest shifted right |
| Input.RemoveAt | src/tui/components/input.rs:44 | one shorter, the rest shifted left over the position |
| Input.RemoveInsert | src/tui/components/input.rs:37-53 | removing what was inserted restores the text |
| Input.InsertRemove | src/tui/components/input.rs:42-46 | reinserting a removed character restores the text |
| Input.Mask | src/tui/components/input.rs:82 | n bullets |
| Input.InputField.constructor | src/tui/components/input.rs:16-24 | empty, plain, inactive, cursor 0 |
| Input.InputField.WithPassword | src/tui/components/input.rs:26-29 | the field becomes a password field, nothing else changes; a well-formed field stays well-formed |
| Input.InputField.WithValue | src/tui/components/input.rs:31-35 | value replaced, cursor after its end |
| Input.InputField.InsertChar | src/tui/components/input.rs:37-40 | the character inserted at the cursor, the cursor one further, cursor within the value |
| Input.InputField.DeleteChar | src/tui/components/input.rs:42-46 | the character under the cursor removed, nothing at the end; the cursor stays |
| Input.InputField.Backspace | src/tui/components/input.rs:48-53 | the character before the cursor removed and the cursor moved back; nothing at 0 |
| Input.InputField.MoveCursorLeft | src/tui/components/input.rs:55-59 | one back, stopping at 0; value unchanged |
| Input.InputField.MoveCursorRight | src/tui/components/input.rs:61-65 | one forward, stopping at the end; value unchanged |
| Input.InputField.MoveCursorStart | src/tui/components/input.rs:67-69 | cursor at 0 |
| Input.InputField.MoveCursorEnd | src/tui/components/input.rs:71-73 | cursor at the end |
| Input.InputField.Clear | src/tui/components/input.rs:75-78 | empty value, cursor at 0 |
| Input.InputField.DisplayValue | src/tui/components/input.rs:80-86 | as long as the value; all bullets for a password; the value itself otherwise |
| Wizard.Next | src/tui/components/wizard.rs:91-99 | one place further, `Confirm` fixed |
| Wizard.Previous | src/tui/components/wizard.rs:101-109 | one place back, `SelectType` fixed |
| Wizard.PositionInjective | src/tui/components/wizard.rs:4-11 | the five steps have distinct places |
| Wizard.PreviousNext | src/tui/components/wizard.rs:91-109 | back after forward is the identity except at `Confirm` |
| Wizard.NextPrevious | src/tui/components/wizard.rs:91-109 | forward after back is the identity except at `SelectType` |
| Wizard.NextNPosition | src/tui/components/wizard.rs:91-99 | k presses move k places, stopping at `Confirm` |
| Wizard.DefaultOptions | src/ssh/generate.rs:24-34 | ED25519 under its own default file name, no bits, no passphrase, `user@host` comment |
| Wizard.FilenameError | src/tui/components/wizard.rs:49-58 | no error exactly for a non-empty name without '/' or '\\'; the empty-name message exactly for the empty name |
| Wizard.ChosenPassphrase | src/tui/components/wizard.rs:75-85 | refused exactly when typed and unconfirmed; `None` exactly for an empty one; otherwise the confirmed passphrase |
| Wizard.CreateWizard.constructor | src/tui/components/wizard.rs:31-41 | at `SelectType` with the default options, no error, the ED25519 file name proposed |
| Wizard.CreateWizard.SelectType | src/tui/components/wizard.rs:43-47 | type set, its default file name proposed, step `EnterFilename` |
| Wizard.CreateWizard.SetFilename | src/tui/components/wizard.rs:49-64 | accepted exactly for a valid name: stored, step `EnterComment`, error cleared; otherwise options and step unchanged and the error shown |
| Wizard.CreateWizard.SetComment | src/tui/components/wizard.rs:66-73 | the comment or `user@host` for an empty one; step `EnterPassphrase` |
| Wizard.CreateWizard.SetPassphrase | src/tui/components/wizard.rs:75-89 | refused exactly when typed and unconfirmed, with the mismatch error; otherwise stored and error cleared; step never changes |
| Wizard.CreateWizard.NextStep | src/tui/components/wizard.rs:91-99 | step advanced by `Next`, nothing else changes |
| Wizard.CreateWizard.PreviousStep | src/tui/components/wizard.rs:101-109 | step moved back by `Previous`, nothing else changes |
| Wizard.CreateWizard.Summary | src/tui/components/wizard.rs:125-136 | starts with "Key Type: "; ends in "Yes" exactly when a passphrase is set |
| App.NextIndex | src/tui/app.rs:92-96 | within the list; one further, wrapping from the last to the first; unchanged with no keys |
| App.PreviousIndex | src/tui/app.rs:98-106 | within the list; wraps from the first to the last; unchanged with no keys |
| App.PreviousAfterNext | src/tui/app.rs:92-106 | back after forward returns to the same key |
| App.NextAfterPrevious | src/tui/app.rs:92-106 | forward after back returns to the same key |
| App.NextIndexNRotates | src/tui/app.rs:92-96 | k presses, for any k, put the selection at (i + k) mod n; up to once per key that is i + k, less n once past the last key |
| App.FullCycle | src/tui/app.rs:255-271 | as many presses as keys return to the start |
| App.WizardNextEffect | src/tui/app.rs:150-187 | progress exactly at comment and confirm, or with a valid name or confirmed passphrase; no progress changes nothing; at file name or comment it moves two places and clears the input |
| App.WizardNextIntended | src/tui/app.rs:150-187 | every successful press moves exactly one step |
| App.IntendedDiffersOnlyInStep | src/tui/app.rs:157-171 | the corrected press differs from the written one only in the step at file name and comment |
| App.IntendedVisitsEveryStep | src/tui/components/wizard.rs:4-11 | with the corrected press, accepted entries walk file name, comment, passphrase, confirm |
| App.WizardNextSkipsComment | src/tui/app.rs:286-288 | as written, "test_key" lands on `EnterPassphrase`; corrected, on `EnterComment` |
| App.App.constructor | src/tui/app.rs:57-78 | key list shown with the scan's keys, first selected, no message, no wizard, empty dialogs |
| App.App.RefreshKeys | src/tui/app.rs:80-90 | keys rescanned; selection pulled back to the last key when it fell off, left alone with no keys; a non-empty list keeps a selected key |
| App.App.NextKey | src/tui/app.rs:92-96 | selection moved by `NextIndex`, selection kept inside the list |
| App.App.PreviousKey | src/tui/app.rs:98-106 | selection moved by `PreviousIndex`, selection kept inside the list |
| App.App.GetSelectedKey | src/tui/app.rs:108-110 | the selected key exactly when the index is inside the list; always one for a non-empty list |
| App.App.SelectKey | src/tui/app.rs:112-116 | the index taken only when inside the list |
| App.App.SetMessage | src/tui/app.rs:118-121 | message stored with its return screen; message dialog shown |
| App.App.ClearMessage | src/tui/app.rs:123-128 | back to the message's return screen, if any; no message |
| App.App.ShouldQuit | src/tui/app.rs:130-132 | true exactly in the quit state |
| App.App.DefaultExportPath | src/tui/app.rs:134-137 | the export directory joined with "ssh_backup_<timestamp>.skm": the directory, a separator unless it already ends in one, then that name with the backup extension |
| App.App.StartWizard | src/tui/app.rs:140-144 | a new wizard at `SelectType` with default options; both inputs empty |
| App.App.GetWizardStep | src/tui/app.rs:146-148 | the wizard's step, `None` without a wizard |
| App.App.WizardNext | src/tui/app.rs:150-187 | the wizard, its result and the input follow `WizardNextEffect`; nothing without a wizard |
| App.App.WizardPrevious | src/tui/app.rs:189-195 | one step back and both inputs emptied; options, error, stored file name and the other typed fields unchanged |
| App.App.WizardSelectType | src/tui/app.rs:197-202 | type chosen, step `EnterFilename`, its default file name stored and put in the input; error and the other typed fields unchanged |
| App.App.GetWizardError | src/tui/app.rs:208-210 | the wizard's error, `None` without a wizard |
| App.App.ClearWizardError | src/tui/app.rs:212-216 | the wizard's error cleared; its step, options, proposed file name and typed entries unchanged |
| App.App.EndWizard | src/tui/app.rs:218-222 | no wizard, both inputs empty |
| App.App.StartExport | src/tui/app.rs:225-229 | default export path proposed, passphrase empty, dialog at its first field |
| App.App.StartImport | src/tui/app.rs:231-235 | import path and passphrase empty, dialog at its first field |
| Cli.ToKeyType | src/cli/mod.rs:126-132 | each argument gives the key type of the same name, distinct arguments distinct types |
| Cli.DefaultFilename | src/cli/mod.rs:134-139 | equals the key type's own default file name |
| Cli.DefaultFilenameClassifies | src/cli/mod.rs:134-139 | a default file name is classified back as the argument's type |
| Cli.ToMergeStrategy | src/cli/mod.rs:152-161 | Skip, Overwrite, Rename to `SkipExisting`, `Overwrite`, `Rename`, each exactly |
| Cli.ToMergeStrategyOnto | src/cli/mod.rs:152-161 | every merge strategy can be chosen |
| Cli.ToMergeStrategyInjective | src/cli/mod.rs:152-161 | distinct arguments choose distinct strategies |
| Cli.DefaultStrategiesAgree | src/cli/mod.rs:88 | the command line's default "skip" is the backup engine's default strategy |

## Left out

- Cryptography: age/scrypt encryption is modelled by a transparent envelope (header, passphrase stanza, salt, payload). It keeps the callers' contract: round trip, wrong passphrase, foreign input, fresh salt. `encrypt_to_armor` is not part of this model.
- JSON: `serde_json` is modelled by a self-delimiting binary codec with the same round trip and the same error kind. Serialisation and encryption cannot fail in the model, so those two error exits of `export` are not modelled.
- Clock, hostname, username and randomness are parameters. This covers the creation time and timestamps (`ExportEnv`, the import `clock` indexed by entry position), the `user@host` comment and the salt. The `USER`/`USERNAME`/`localhost` fallbacks are not modelled.
- The directory walk is an input (`WalkEntry`: the path and the path it resolves to). Walk errors, links and depth are not modelled.
- Text is a sequence of characters. The input field indexes characters where the program indexes bytes, so the model agrees with it on ASCII text only. File contents are decoded as ASCII only. The fingerprint slice `[..16]` is taken on characters.
- `SshKey` leaves out `created_at`, `modified_at` and `size`. `from_path` cannot fail in the model, and a path with no file stem (the "unknown" fallback) is not modelled.
- The mode of a newly created file is the usual 0o644 (umask 022). No other umask is modelled.
- Report errors hold the error value, not its `to_string` text.
- Version and key-count fields of an imported backup are not checked, as in the program.
- Rendering, key events, key generation, configuration loading, `get_step_description`, `get_options`, `get_wizard_options`, the `show_help`, `selected_key` and `confirm_delete` fields of `App`, and the rest of the CLI (argument parsing, prompts, printing) are not part of this model.
- Disk.WriteFile: a write fails only over a directory. A missing parent directory, missing permissions and a full disk are not modelled, so `Backup.ExportImportRoundTrip`, `Backup.ImportFreshBackup` and `Backup.ImportAllFresh` hold as if the SSH directory always exists.
- Disk.Join: paths are plain strings and are never normalised. "." and ".." components and trailing separators stay as written, and `Disk.FileSystem.Exists` looks up the exact string. So a backup entry named "", "." or "../x" is, in the model, a path of its own, while on a real file system it names the SSH directory itself or a file outside it. For example an empty name under `SkipExisting` is skipped by the program, because the SSH directory exists, but imported by the model; and "../x" would overwrite the file `x.pub` next to the SSH directory.
- Backup.ImportEntryFrame: "only the chosen name's two paths change" holds per path string. For entry names with "..", "." or an empty name the program reaches other files, as the `Disk.Join` line says; the same limit applies to `Backup.ImportEntryEffect`, `Backup.ImportEntryDecision`, `Backup.DryRunOutcome`, `Backup.WriteHalvesFrame` and `Backup.ImportAllFreshFrame`.
- Encryption.DecryptWithPassphrase: the envelope carries no authentication tag, so a damaged payload after a matching stanza is returned as it is; age authenticates the payload and would fail with an `Encryption` error there. In the model such a payload goes on to parsing, which rejects it with `ImportExport` unless it happens to be a well-formed backup.
- Backup.BackupManager.DryRun: follows the program and does not use the corrected `DryRunOutcomeIntended`. Backup.BackupManager.ImportEntry follows the program's rename and does not use `ImportEntryEffectIntended`. App.App.WizardNext follows the program and does not use `WizardNextIntended`. The corrected definitions stand beside them with their properties proved.

## Findings

| source | as written | input that shows it | evidently intended | confidence | as-written member | corrected member |
|---|---|---|---|---|---|---|
| src/crypto/backup.rs:175-176 | the dry run treats a key as existing only when its private path exists; the import also counts an existing public half (line 209) | `/home/u/.ssh/id.pub` present, entry "id", `SkipExisting`: the preview says imported, the import skips | the preview checks the same two paths as the import | high (not executed) | Backup.DryRunMissesPublicOnlyKey | Backup.DryRunIntendedAgreesWithImport |
| src/crypto/backup.rs:218-220 | the renamed key's public half goes to `with_extension("pub")` of "<name>_<timestamp>". For a name with an extension that cuts at the original dot, which is the existing key's public path | existing "my.key" with "my.pub", `Rename`: the import writes "my.key_<ts>" and overwrites "my.pub" | the renamed key gets its own public file and the existing key is untouched; listing the renamed key (`from_path`, src/ssh/keys.rs:101) also uses `with_extension("pub")`, so it would need the same change to find that file | high (not executed) | Backup.RenameOverwritesExistingPublicKey | Backup.RenameIntendedKeepsOriginal |
| src/tui/app.rs:157-171 | `set_filename` and `set_comment` already advance the wizard, and `wizard_next` calls `next_step` again, skipping the comment and the passphrase steps | wizard at `EnterFilename`, input "test_key": step becomes `EnterPassphrase`; the test at src/tui/app.rs:286-288 expects `EnterComment` | one step per accepted entry | high (not executed) | App.WizardNextSkipsComment | App.IntendedVisitsEveryStep |
