/** The command-line arguments that name a key type or a merge strategy,
    and their translation into the values the key and backup code use. */
module Cli {
  import Keys
  import Backup

  /** `KeyTypeArg`: the key types `generate` accepts. */
  datatype KeyTypeArg = Ed25519 | Rsa

  /** `MergeStrategyArg`: what `import` does with a key that already exists. */
  datatype MergeStrategyArg = Skip | Overwrite | Rename

  /** The strategy `import` uses when none is given ("skip"). */
  const DefaultStrategyArg: MergeStrategyArg := Skip

  /** `KeyTypeArg::to_key_type`: each argument names the key type of the
      same name, so distinct arguments give distinct key types. */
  function ToKeyType(a: KeyTypeArg): (t: Keys.KeyType)
    ensures t == Keys.Ed25519 <==> a == Ed25519
    ensures t == Keys.Rsa <==> a == Rsa
  {
    match a
    case Ed25519 => Keys.Ed25519
    case Rsa => Keys.Rsa
  }

  /** `KeyTypeArg::default_filename`: the same name the key type itself
      proposes. */
  function DefaultFilename(a: KeyTypeArg): (f: string)
    ensures f == Keys.DefaultFilename(ToKeyType(a))
  {
    match a
    case Ed25519 => "id_ed25519"
    case Rsa => "id_rsa"
  }

  /** A key written under the default name of an argument is recognised,
      from that name alone, as the key type the argument names. */
  lemma DefaultFilenameClassifies(a: KeyTypeArg)
    ensures Keys.FromFilename(DefaultFilename(a)) == ToKeyType(a)
  {
    Keys.FromDefaultFilename(ToKeyType(a));
  }

  /** `MergeStrategyArg::to_merge_strategy`. */
  function ToMergeStrategy(a: MergeStrategyArg): (m: Backup.MergeStrategy)
    ensures m == Backup.SkipExisting <==> a == Skip
    ensures m == Backup.Overwrite <==> a == Overwrite
    ensures m == Backup.Rename <==> a == Rename
  {
    match a
    case Skip => Backup.SkipExisting
    case Overwrite => Backup.Overwrite
    case Rename => Backup.Rename
  }

  /** The argument that selects a given strategy. */
  function FromMergeStrategy(m: Backup.MergeStrategy): (a: MergeStrategyArg)
  {
    match m
    case SkipExisting => Skip
    case Overwrite => Overwrite
    case Rename => Rename
  }

  /** Every strategy is reachable from the command line ... */
  lemma ToMergeStrategyOnto(m: Backup.MergeStrategy)
    ensures ToMergeStrategy(FromMergeStrategy(m)) == m
  {
  }

  /** ... and by exactly one argument. */
  lemma ToMergeStrategyInjective(a: MergeStrategyArg, b: MergeStrategyArg)
    requires ToMergeStrategy(a) == ToMergeStrategy(b)
    ensures a == b
  {
  }

  /** The command line's default strategy is the backup engine's default. */
  lemma DefaultStrategiesAgree()
    ensures ToMergeStrategy(DefaultStrategyArg) == Backup.DefaultImportOptions.mergeStrategy
  {
  }
}
