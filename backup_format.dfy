/** The content of a backup file before encryption: metadata and one entry
    per exported key, with a serialisation and a parser that gives back
    exactly what was serialised and rejects everything malformed with an
    `ImportExport` error. The byte layout is a self-delimiting binary
    stand-in for the JSON document the program writes. */
module BackupFormat {
  import opened Common
  import opened Wire

  /** Version stamped into every backup. */
  const BackupVersion: nat := 1

  /** File extension of backup files (`get_backup_extension`). */
  const BackupExtension: string := "skm"

  /** `BackupMetadata`; `createdAt` is the rendered local time of export. */
  datatype BackupMetadata = BackupMetadata(
    version: nat,
    createdAt: string,
    hostname: string,
    username: string,
    keyCount: nat,
    description: Option<string>)

  /** `BackupEntry`: a key's name, its type as displayed, its comment and
      whichever halves were read. */
  datatype BackupEntry = BackupEntry(
    name: string,
    keyType: string,
    comment: Option<string>,
    privateKey: Option<Bytes>,
    publicKey: Option<Bytes>)

  datatype BackupData = BackupData(metadata: BackupMetadata, keys: seq<BackupEntry>)

  function EncMetadata(m: BackupMetadata): Bytes
  {
    EncNat(m.version) + (EncString(m.createdAt) + (EncString(m.hostname)
      + EncOwner(m.username, m.keyCount, m.description)))
  }

  /** The trailing fields of the metadata: user, key count, description. */
  function EncOwner(username: string, keyCount: nat, description: Option<string>): Bytes
  {
    EncString(username) + (EncNat(keyCount) + EncOptString(description))
  }

  function DecOwner(s: Bytes): Option<(string, nat, Option<string>, Bytes)>
  {
    match DecString(s)
    case None => None
    case Some((username, s1)) =>
      match DecNat(s1)
      case None => None
      case Some((keyCount, s2)) =>
        match DecOptString(s2)
        case None => None
        case Some((description, s3)) => Some((username, keyCount, description, s3))
  }

  lemma DecEncOwner(username: string, keyCount: nat, description: Option<string>, rest: Bytes)
    ensures DecOwner(EncOwner(username, keyCount, description) + rest)
         == Some((username, keyCount, description, rest))
  {
    var r2 := EncOptString(description) + rest;
    var r1 := EncNat(keyCount) + r2;
    assert EncOwner(username, keyCount, description) + rest == EncString(username) + r1;
    DecEncString(username, r1);
    DecEncNat(keyCount, r2);
    DecEncOptString(description, rest);
  }

  function DecMetadata(s: Bytes): (r: Option<(BackupMetadata, Bytes)>)
  {
    match DecNat(s)
    case None => None
    case Some((version, s1)) =>
      match DecString(s1)
      case None => None
      case Some((createdAt, s2)) =>
        match DecString(s2)
        case None => None
        case Some((hostname, s3)) =>
          match DecOwner(s3)
          case None => None
          case Some((username, keyCount, description, s4)) =>
            Some((BackupMetadata(version, createdAt, hostname, username, keyCount, description), s4))
  }

  lemma DecEncMetadata(m: BackupMetadata, rest: Bytes)
    ensures DecMetadata(EncMetadata(m) + rest) == Some((m, rest))
  {
    var r3 := EncOwner(m.username, m.keyCount, m.description) + rest;
    var r2 := EncString(m.hostname) + r3;
    var r1 := EncString(m.createdAt) + r2;
    assert EncMetadata(m) + rest == EncNat(m.version) + r1;
    DecEncNat(m.version, r1);
    DecEncString(m.createdAt, r2);
    DecEncString(m.hostname, r3);
    DecEncOwner(m.username, m.keyCount, m.description, rest);
  }

  function EncEntry(e: BackupEntry): Bytes
  {
    EncString(e.name) + (EncString(e.keyType) + (EncOptString(e.comment)
      + (EncOptBytes(e.privateKey) + EncOptBytes(e.publicKey))))
  }

  function DecEntry(s: Bytes): Option<(BackupEntry, Bytes)>
  {
    match DecString(s)
    case None => None
    case Some((name, s1)) =>
      match DecString(s1)
      case None => None
      case Some((keyType, s2)) =>
        match DecOptString(s2)
        case None => None
        case Some((comment, s3)) =>
          match DecOptBytes(s3)
          case None => None
          case Some((privateKey, s4)) =>
            match DecOptBytes(s4)
            case None => None
            case Some((publicKey, s5)) =>
              Some((BackupEntry(name, keyType, comment, privateKey, publicKey), s5))
  }

  lemma DecEncEntry(e: BackupEntry, rest: Bytes)
    ensures DecEntry(EncEntry(e) + rest) == Some((e, rest))
  {
    var r5 := EncOptBytes(e.publicKey) + rest;
    var r4 := EncOptBytes(e.privateKey) + r5;
    var r3 := EncOptString(e.comment) + r4;
    var r2 := EncString(e.keyType) + r3;
    assert EncEntry(e) + rest == EncString(e.name) + r2;
    DecEncString(e.name, r2);
    DecEncString(e.keyType, r3);
    DecEncOptString(e.comment, r4);
    DecEncOptBytes(e.privateKey, r5);
    DecEncOptBytes(e.publicKey, rest);
  }

  function EncEntries(es: seq<BackupEntry>): Bytes
  {
    if es == [] then [] else EncEntry(es[0]) + EncEntries(es[1..])
  }

  /** Parses exactly `n` entries. */
  function DecEntries(n: nat, s: Bytes): (r: Option<(seq<BackupEntry>, Bytes)>)
    ensures r.Some? ==> |r.value.0| == n
  {
    if n == 0 then Some(([], s))
    else match DecEntry(s)
      case None => None
      case Some((e, rest)) =>
        match DecEntries(n - 1, rest)
        case None => None
        case Some((es, rest')) => Some(([e] + es, rest'))
  }

  lemma {:induction false} DecEncEntries(es: seq<BackupEntry>, rest: Bytes)
    ensures DecEntries(|es|, EncEntries(es) + rest) == Some((es, rest))
  {
    if es == [] {
      assert EncEntries(es) + rest == rest;
    } else {
      DecEncEntries(es[1..], rest);
      DecEncEntriesCons(es, rest);
    }
  }

  /** One more entry in front decodes as one more entry. */
  lemma DecEncEntriesCons(es: seq<BackupEntry>, rest: Bytes)
    requires es != []
    requires DecEntries(|es| - 1, EncEntries(es[1..]) + rest) == Some((es[1..], rest))
    ensures DecEntries(|es|, EncEntries(es) + rest) == Some((es, rest))
  {
    DecEntryOfCons(es, rest);
    DecEntriesStep(|es|, EncEntries(es) + rest, es, EncEntries(es[1..]) + rest, rest);
  }

  /** The first entry of an encoded list decodes, leaving the rest. */
  lemma DecEntryOfCons(es: seq<BackupEntry>, rest: Bytes)
    requires es != []
    ensures DecEntry(EncEntries(es) + rest) == Some((es[0], EncEntries(es[1..]) + rest))
  {
    assert EncEntries(es) + rest == EncEntry(es[0]) + (EncEntries(es[1..]) + rest);
    DecEncEntry(es[0], EncEntries(es[1..]) + rest);
  }

  lemma DecEntriesStep(n: nat, s: Bytes, es: seq<BackupEntry>, tail: Bytes, rest: Bytes)
    requires n > 0 && es != []
    requires DecEntry(s) == Some((es[0], tail))
    requires DecEntries(n - 1, tail) == Some((es[1..], rest))
    ensures DecEntries(n, s) == Some((es, rest))
  {
    assert [es[0]] + es[1..] == es;
  }

  /** `serde_json::to_vec(&backup)`. */
  function Serialize(d: BackupData): Bytes
  {
    EncMetadata(d.metadata) + (EncNat(|d.keys|) + EncEntries(d.keys))
  }

  /** `serde_json::from_slice`: anything that is not exactly one serialised
      backup, trailing bytes included, is an `ImportExport` error. */
  function Deserialize(s: Bytes): (r: Result<BackupData>)
    ensures r.Err? ==> r.error.ImportExport?
  {
    match DecMetadata(s)
    case None => Err(ImportExport("Invalid backup format"))
    case Some((metadata, s1)) =>
      match DecNat(s1)
      case None => Err(ImportExport("Invalid backup format"))
      case Some((n, s2)) =>
        match DecEntries(n, s2)
        case None => Err(ImportExport("Invalid backup format"))
        case Some((keys, s3)) =>
          if s3 == [] then Ok(BackupData(metadata, keys))
          else Err(ImportExport("Invalid backup format"))
  }

  /** Parsing a serialised backup gives it back unchanged. */
  lemma DeserializeSerialize(d: BackupData)
    ensures Deserialize(Serialize(d)) == Ok(d)
  {
    var r2 := EncEntries(d.keys) + [];
    var r1 := EncNat(|d.keys|) + r2;
    assert Serialize(d) == EncMetadata(d.metadata) + r1;
    DecEncMetadata(d.metadata, r1);
    DecEncNat(|d.keys|, r2);
    DecEncEntries(d.keys, []);
  }

  /** Distinct backups serialise to distinct bytes. */
  lemma SerializeInjective(d1: BackupData, d2: BackupData)
    requires Serialize(d1) == Serialize(d2)
    ensures d1 == d2
  {
    DeserializeSerialize(d1);
    DeserializeSerialize(d2);
  }

  /** The empty input is not a backup. */
  lemma EmptyIsNotABackup()
    ensures Deserialize([]).Err? && Deserialize([]).error.ImportExport?
  {
  }
}
