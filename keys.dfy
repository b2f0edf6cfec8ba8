/** SSH key records: the key type derived from a file name, the status
    derived from which halves exist, the fingerprint and comment read from a
    public key line, and rewriting that comment. */
module Keys {
  import opened Common
  import opened Disk

  datatype KeyType = Rsa | Ed25519 | Ecdsa | Dsa | Unknown

  /** `Display for KeyType`. */
  function KeyTypeName(t: KeyType): (s: string)
    ensures |s| > 0
  {
    match t
    case Rsa => "RSA"
    case Ed25519 => "ED25519"
    case Ecdsa => "ECDSA"
    case Dsa => "DSA"
    case Unknown => "Unknown"
  }

  /** The five display names are pairwise distinct. */
  lemma KeyTypeNameInjective(a: KeyType, b: KeyType)
    requires KeyTypeName(a) == KeyTypeName(b)
    ensures a == b
  {
  }

  /** `sub` occurs in `s` starting at index `i`. */
  predicate OccursAt(s: string, sub: string, i: nat)
  {
    i + |sub| <= |s| && s[i..i + |sub|] == sub
  }

  /** `str::contains` for a string pattern. */
  function Contains(s: string, sub: string): (b: bool)
    ensures b <==> exists i: nat :: OccursAt(s, sub, i)
    decreases |s|
  {
    if |s| < |sub| then false
    else if s[..|sub|] == sub then
      assert OccursAt(s, sub, 0);
      true
    else
      var r := Contains(s[1..], sub);
      if r then
        var i: nat :| OccursAt(s[1..], sub, i);
        assert s[i + 1..i + 1 + |sub|] == s[1..][i..i + |sub|];
        assert OccursAt(s, sub, i + 1);
        true
      else
        assert !OccursAt(s, sub, 0);
        forall i: nat | i > 0
          ensures OccursAt(s, sub, i) == OccursAt(s[1..], sub, i - 1)
        {
          if i + |sub| <= |s| {
            assert s[1..][i - 1..i - 1 + |sub|] == s[i..i + |sub|];
          }
        }
        false
  }

  /** `KeyType::from_filename`: substrings tested in the order rsa, ed25519,
      ecdsa, dsa. */
  function FromFilename(filename: string): KeyType
  {
    if Contains(filename, "rsa") then Rsa
    else if Contains(filename, "ed25519") then Ed25519
    else if Contains(filename, "ecdsa") then Ecdsa
    else if Contains(filename, "dsa") then Dsa
    else KeyType.Unknown
  }

  /** `KeyType::default_filename`: a plain file name, "id_" then the type. */
  function DefaultFilename(t: KeyType): (f: string)
    ensures |f| > 3 && f[..3] == "id_"
    ensures '/' !in f && '.' !in f
  {
    match t
    case Rsa => "id_rsa"
    case Ed25519 => "id_ed25519"
    case Ecdsa => "id_ecdsa"
    case Dsa => "id_dsa"
    case Unknown => "id_unknown"
  }

  /** Every name holding "ecdsa" also holds "dsa", which is why "ecdsa" must
      be tested first; such a name is never classified as DSA. */
  lemma EcdsaNameIsNeverDsa(filename: string)
    requires Contains(filename, "ecdsa")
    ensures Contains(filename, "dsa")
    ensures FromFilename(filename) != Dsa
  {
    var i: nat :| OccursAt(filename, "ecdsa", i);
    assert filename[i + 2..i + 5] == filename[i..i + 5][2..];
    assert OccursAt(filename, "dsa", i + 2);
  }

  /** A name is classified DSA exactly when it holds "dsa" and none of the
      patterns tested before. */
  lemma DsaClassification(filename: string)
    ensures FromFilename(filename) == Dsa
        <==> Contains(filename, "dsa") && !Contains(filename, "ecdsa")
             && !Contains(filename, "rsa") && !Contains(filename, "ed25519")
  {
  }

  /** A name is `Unknown` exactly when it holds none of the four patterns. */
  lemma UnknownClassification(filename: string)
    ensures FromFilename(filename) == KeyType.Unknown
        <==> !Contains(filename, "rsa") && !Contains(filename, "ed25519")
             && !Contains(filename, "ecdsa") && !Contains(filename, "dsa")
  {
  }

  /** The classifier recognises every default file name as its own type. */
  lemma FromDefaultFilename(t: KeyType)
    ensures FromFilename(DefaultFilename(t)) == t
  {
    match t
    case Rsa => PatternPresent("id_rsa", "rsa", 3);
    case Ed25519 => ClassifyEd25519();
    case Ecdsa => ClassifyEcdsa();
    case Dsa => ClassifyDsa();
    case Unknown => ClassifyUnknown();
  }

  lemma ClassifyEd25519()
    ensures FromFilename("id_ed25519") == Ed25519
  {
    var name := "id_ed25519";
    assert name[3..10] == "ed25519";
    ClassifyEd25519Name(name, 3);
  }

  lemma ClassifyEcdsa()
    ensures FromFilename("id_ecdsa") == Ecdsa
  {
    var name := "id_ecdsa";
    assert name[3..8] == "ecdsa";
    ClassifyEcdsaName(name, 3);
  }

  lemma ClassifyDsa()
    ensures FromFilename("id_dsa") == Dsa
  {
    var name := "id_dsa";
    assert name[3..6] == "dsa";
    ClassifyDsaName(name, 3);
  }

  lemma ClassifyUnknown()
    ensures FromFilename("id_unknown") == KeyType.Unknown
  {
    ClassifyUnknownName("id_unknown");
  }

  /** The name "unknown" holds none of the patterns. */
  lemma ClassifyUnknownTested()
    ensures FromFilename("unknown") == KeyType.Unknown
  {
    ClassifyUnknownName("unknown");
  }

  /** The classification steps behind the four lemmas above, on a name
      described by the characters it lacks and the pattern it holds. */
  lemma ClassifyEd25519Name(name: string, i: nat)
    requires 'r' !in name && OccursAt(name, "ed25519", i)
    ensures FromFilename(name) == Ed25519
  {
    MissingCharNotContained(name, "rsa", 0);
  }

  lemma ClassifyEcdsaName(name: string, i: nat)
    requires 'r' !in name && '2' !in name && OccursAt(name, "ecdsa", i)
    ensures FromFilename(name) == Ecdsa
  {
    MissingCharNotContained(name, "rsa", 0);
    MissingCharNotContained(name, "ed25519", 2);
  }

  lemma ClassifyDsaName(name: string, i: nat)
    requires 'r' !in name && 'e' !in name && OccursAt(name, "dsa", i)
    ensures FromFilename(name) == Dsa
  {
    MissingCharNotContained(name, "rsa", 0);
    MissingCharNotContained(name, "ed25519", 0);
    MissingCharNotContained(name, "ecdsa", 0);
  }

  lemma ClassifyUnknownName(name: string)
    requires 'r' !in name && 'e' !in name && 's' !in name
    ensures FromFilename(name) == KeyType.Unknown
  {
    MissingCharNotContained(name, "rsa", 0);
    MissingCharNotContained(name, "ed25519", 0);
    MissingCharNotContained(name, "ecdsa", 0);
    MissingCharNotContained(name, "dsa", 1);
  }

  lemma PatternPresent(s: string, sub: string, i: nat)
    requires i + |sub| <= |s| && s[i..i + |sub|] == sub
    ensures Contains(s, sub)
  {
    assert OccursAt(s, sub, i);
  }

  /** A pattern with a character that never appears in `s` does not occur in
      `s`. */
  lemma MissingCharNotContained(s: string, sub: string, k: nat)
    requires k < |sub| && sub[k] !in s
    ensures !Contains(s, sub)
  {
    forall i: nat ensures !OccursAt(s, sub, i) {
      if i + |sub| <= |s| {
        assert s[i..i + |sub|][k] == s[i + k];
      }
    }
  }

  datatype KeyStatus = Valid | MissingPublic | MissingPrivate | Corrupted | Encrypted

  /** `SshKey::determine_status` from the existence of the two halves. */
  function DetermineStatus(privateExists: bool, publicExists: bool): (s: KeyStatus)
    ensures s != Encrypted
  {
    if privateExists && publicExists then Valid
    else if privateExists && !publicExists then MissingPublic
    else if !privateExists && publicExists then MissingPrivate
    else Corrupted
  }

  /** What a status says about the private half. */
  function PrivatePresent(s: KeyStatus): bool
  {
    s == Valid || s == MissingPublic
  }

  /** What a status says about the public half. */
  function PublicPresent(s: KeyStatus): bool
  {
    s == Valid || s == MissingPrivate
  }

  /** The status records exactly which halves exist: both facts can be read
      back from it, so no two existence patterns share a status. */
  lemma StatusRecordsPresence(privateExists: bool, publicExists: bool)
    ensures PrivatePresent(DetermineStatus(privateExists, publicExists)) == privateExists
    ensures PublicPresent(DetermineStatus(privateExists, publicExists)) == publicExists
  {
  }

  /** `char::is_whitespace` (the Unicode White_Space property). */
  predicate IsWhitespace(c: char)
  {
    var n := c as int;
    (9 <= n <= 13) || n == 0x20 || n == 0x85 || n == 0xA0 || n == 0x1680
    || (0x2000 <= n <= 0x200A) || n == 0x2028 || n == 0x2029 || n == 0x202F
    || n == 0x205F || n == 0x3000
  }

  /** A token of `split_whitespace`: non-empty, without whitespace. */
  predicate IsToken(w: string)
  {
    |w| > 0 && forall i :: 0 <= i < |w| ==> !IsWhitespace(w[i])
  }

  /** Length of the run of non-whitespace characters that starts `s`. */
  function WordLength(s: string): (n: nat)
    ensures n <= |s|
    ensures forall i :: 0 <= i < n ==> !IsWhitespace(s[i])
    ensures n < |s| ==> IsWhitespace(s[n])
  {
    if s == [] || IsWhitespace(s[0]) then 0 else 1 + WordLength(s[1..])
  }

  /** `s.split_whitespace()`: the maximal runs of non-whitespace characters,
      in order. (`trim` before it changes nothing.) */
  function Tokens(s: string): (ts: seq<string>)
    ensures forall i :: 0 <= i < |ts| ==> IsToken(ts[i])
    decreases |s|
  {
    if s == [] then []
    else if IsWhitespace(s[0]) then Tokens(s[1..])
    else
      var n := WordLength(s);
      [s[..n]] + Tokens(s[n..])
  }

  /** `parts.join(" ")`. */
  function JoinSpace(ts: seq<string>): string
  {
    if ts == [] then ""
    else if |ts| == 1 then ts[0]
    else ts[0] + " " + JoinSpace(ts[1..])
  }

  lemma {:induction false} WordLengthOfToken(w: string, rest: string)
    requires IsToken(w)
    requires rest == [] || IsWhitespace(rest[0])
    ensures WordLength(w + rest) == |w|
    decreases |w|
  {
    assert (w + rest)[0] == w[0];
    if |w| > 1 {
      assert (w + rest)[1..] == w[1..] + rest;
      WordLengthOfToken(w[1..], rest);
    } else {
      assert (w + rest)[1..] == rest;
    }
  }

  /** Splitting a token followed by whitespace and more text yields the token
      and then the tokens of the rest. */
  lemma TokensOfTokenThen(w: string, rest: string)
    requires IsToken(w)
    requires rest == [] || IsWhitespace(rest[0])
    ensures Tokens(w + rest) == [w] + Tokens(rest)
  {
    WordLengthOfToken(w, rest);
    var s := w + rest;
    assert s[..|w|] == w && s[|w|..] == rest;
  }

  /** Splitting tokens joined by single spaces gives back the tokens. */
  lemma {:induction false} TokensOfJoinSpace(ts: seq<string>)
    requires forall i :: 0 <= i < |ts| ==> IsToken(ts[i])
    ensures Tokens(JoinSpace(ts)) == ts
  {
    if |ts| == 1 {
      TokensOfTokenThen(ts[0], []);
      assert ts[0] + [] == ts[0];
    } else if |ts| > 1 {
      var rest := " " + JoinSpace(ts[1..]);
      assert JoinSpace(ts) == ts[0] + rest;
      TokensOfTokenThen(ts[0], rest);
      assert rest[1..] == JoinSpace(ts[1..]);
      TokensOfJoinSpace(ts[1..]);
      assert [ts[0]] + ts[1..] == ts;
    }
  }

  function Min(a: nat, b: nat): nat
  {
    if a < b then a else b
  }

  /** The fingerprint and comment shown for a public key line: with at least
      two tokens, the first 16 characters of the second token followed by
      "...", and the third token onward joined by single spaces when there is
      a third; with fewer tokens, neither. */
  function PublicKeyInfo(content: string): (r: (Option<string>, Option<string>))
    ensures r.0.Some? <==> |Tokens(content)| >= 2
    ensures r.1.Some? <==> |Tokens(content)| >= 3
    ensures r.0.Some? ==>
              var f := r.0.value;
              |f| == Min(16, |Tokens(content)[1]|) + 3 && f[|f| - 3..] == "..."
              && f[..|f| - 3] == Tokens(content)[1][..|f| - 3]
    ensures r.1.Some? ==> r.1.value == JoinSpace(Tokens(content)[2..])
    ensures r.1.Some? ==> Tokens(r.1.value) == Tokens(content)[2..]
  {
    var parts := Tokens(content);
    if |parts| >= 2 then
      var fingerprint := parts[1][..Min(16, |parts[1]|)] + "...";
      var comment :=
        if |parts| >= 3 then
          TokensOfJoinSpace(parts[2..]);
          Some(JoinSpace(parts[2..]))
        else None;
      (Some(fingerprint), comment)
    else (None, None)
  }

  predicate IsAscii(s: string)
  {
    forall i :: 0 <= i < |s| ==> s[i] < '\U{80}'
  }

  /** UTF-8 encoding of one character. */
  function Utf8Char(c: char): (b: Bytes)
    ensures 1 <= |b| <= 4
    ensures c < '\U{80}' ==> b == [c as int as byte]
    ensures c >= '\U{80}' ==> b[0] >= 0x80
  {
    var n := c as int;
    if n < 0x80 then [n as byte]
    else if n < 0x800 then [(0xC0 + n / 64) as byte, (0x80 + n % 64) as byte]
    else if n < 0x1_0000 then
      [(0xE0 + n / 4096) as byte, (0x80 + n / 64 % 64) as byte, (0x80 + n % 64) as byte]
    else
      [(0xF0 + n / 262144) as byte, (0x80 + n / 4096 % 64) as byte,
       (0x80 + n / 64 % 64) as byte, (0x80 + n % 64) as byte]
  }

  /** The UTF-8 bytes of a string, as written by `fs::write`. */
  function Utf8Encode(s: string): (b: Bytes)
    ensures IsAscii(s) ==> |b| == |s|
  {
    if s == [] then [] else Utf8Char(s[0]) + Utf8Encode(s[1..])
  }

  /** `fs::read_to_string` decoding, restricted to ASCII text: any byte at
      or above 0x80 makes the content unreadable. */
  function DecodeText(b: Bytes): (r: Option<string>)
    ensures r.Some? ==> |r.value| == |b| && IsAscii(r.value)
  {
    if b == [] then Some("")
    else if b[0] >= 0x80 then None
    else match DecodeText(b[1..])
      case None => None
      case Some(rest) => Some([b[0] as int as char] + rest)
  }

  /** ASCII text survives being written and read back. */
  lemma {:induction false} DecodeEncode(s: string)
    requires IsAscii(s)
    ensures DecodeText(Utf8Encode(s)) == Some(s)
  {
    if s != [] {
      assert Utf8Encode(s) == [s[0] as int as byte] + Utf8Encode(s[1..]);
      assert Utf8Encode(s)[1..] == Utf8Encode(s[1..]);
      DecodeEncode(s[1..]);
      assert [s[0]] + s[1..] == s;
    }
  }

  /** `fs::read_to_string`. */
  function ReadText(files: Files, p: Path): (r: Result<string>)
    ensures r.Ok? ==> ReadFile(files, p).Ok? && DecodeText(ReadFile(files, p).value) == Some(r.value)
  {
    match ReadFile(files, p)
    case Err(e) => Err(e)
    case Ok(bytes) =>
      match DecodeText(bytes)
      case None => Err(Io("stream did not contain valid UTF-8"))
      case Some(text) => Ok(text)
  }

  /** `SshKey::parse_public_key`. */
  function ParsePublicKey(files: Files, publicPath: Path): (r: Result<(Option<string>, Option<string>)>)
    ensures r.Ok? <==> publicPath in files && files[publicPath].File?
                       && DecodeText(files[publicPath].data).Some?
    ensures r.Ok? ==> r.value == PublicKeyInfo(DecodeText(files[publicPath].data).value)
  {
    match ReadText(files, publicPath)
    case Err(e) => Err(e)
    case Ok(content) => Ok(PublicKeyInfo(content))
  }

  /** An SSH key as listed: its name, the paths of both halves, its type, its
      status, and what its public half says. */
  datatype SshKey = SshKey(
    name: string,
    path: Path,
    publicPath: Path,
    keyType: KeyType,
    status: KeyStatus,
    fingerprint: Option<string>,
    comment: Option<string>)

  /** `SshKey::from_path`. */
  function FromPath(files: Files, path: Path): (k: SshKey)
    ensures k.path == path
    ensures k.name == FileStem(path) && k.publicPath == PubPath(path)
    ensures k.publicPath == path[..ComponentStart(path)] + k.name + ".pub"
    ensures k.keyType == FromFilename(k.name)
    ensures k.status == Valid <==> path in files && k.publicPath in files
    ensures k.publicPath !in files ==> k.fingerprint.None? && k.comment.None?
    ensures k.publicPath in files && ParsePublicKey(files, k.publicPath).Ok? ==>
              (k.fingerprint, k.comment) == ParsePublicKey(files, k.publicPath).value
    ensures k.publicPath in files && ParsePublicKey(files, k.publicPath).Err? ==>
              k.fingerprint.None? && k.comment.None?
  {
    var name := FileStem(path);
    var publicPath := PubPath(path);
    PubPathIsStemPub(path);
    var info :=
      if publicPath in files then
        match ParsePublicKey(files, publicPath)
        case Ok(pair) => pair
        case Err(_) => (None, None)
      else (None, None);
    SshKey.SshKey(name, path, publicPath, FromFilename(name),
           DetermineStatus(path in files, publicPath in files), info.0, info.1)
  }

  /** `SshKey::has_private`. */
  predicate HasPrivate(files: Files, key: SshKey)
  {
    key.path in files
  }

  /** `SshKey::has_public`. */
  predicate HasPublic(files: Files, key: SshKey)
  {
    key.publicPath in files
  }

  /** A key read from disk reports, through its status, exactly the halves
      that `has_private` and `has_public` find on the same disk. */
  lemma FromPathStatusAgrees(files: Files, path: Path)
    ensures PrivatePresent(FromPath(files, path).status) == HasPrivate(files, FromPath(files, path))
    ensures PublicPresent(FromPath(files, path).status) == HasPublic(files, FromPath(files, path))
  {
    var k := FromPath(files, path);
    StatusRecordsPresence(path in files, k.publicPath in files);
  }

  /** `SshKey::read_public_content`: no content when the public half is
      missing, otherwise its text or the read error. */
  function ReadPublicContent(files: Files, key: SshKey): (r: Result<Option<string>>)
    ensures !HasPublic(files, key) ==> r == Ok(None)
    ensures HasPublic(files, key) ==>
              (r.Ok? <==> ReadText(files, key.publicPath).Ok?)
              && (r.Ok? ==> r.value == Some(ReadText(files, key.publicPath).value))
  {
    if key.publicPath in files then
      match ReadText(files, key.publicPath)
      case Err(e) => Err(e)
      case Ok(text) => Ok(Some(text))
    else Ok(None)
  }

  /** When `from_path` found a fingerprint, the public half exists and reads
      back with the same fingerprint and comment. */
  lemma FromPathReadsPublicHalf(files: Files, path: Path)
    requires FromPath(files, path).fingerprint.Some?
    ensures var k := FromPath(files, path);
            && ReadPublicContent(files, k).Ok?
            && ReadPublicContent(files, k).value.Some?
            && PublicKeyInfo(ReadPublicContent(files, k).value.value) == (k.fingerprint, k.comment)
  {
  }

  /** The effect of `SshKey::update_comment` on the key and on the files. */
  function CommentUpdate(files: Files, key: SshKey, newComment: string): (Result<SshKey>, Files)
  {
    if key.publicPath !in files then (Err(KeyNotFound(key.publicPath)), files)
    else match ReadText(files, key.publicPath)
      case Err(e) => (Err(e), files)
      case Ok(content) =>
        var parts := Tokens(content);
        if |parts| >= 2 then
          // The read succeeded, so the path is a regular file and the write
          // cannot fail here.
          var w := WriteFile(files, key.publicPath, Utf8Encode(parts[0] + " " + parts[1] + " " + newComment));
          (Ok(key.(comment := Some(newComment))), w.1)
        else (Err(InvalidKeyFormat("Invalid public key format")), files)
  }

  /** `SshKey::update_comment`: the updated key is returned in place of the
      assignment to `self.comment`. */
  method UpdateComment(fs: FileSystem, key: SshKey, newComment: string) returns (r: Result<SshKey>)
    modifies fs
    ensures (r, fs.files) == CommentUpdate(old(fs.files), key, newComment)
  {
    if !fs.Exists(key.publicPath) {
      return Err(KeyNotFound(key.publicPath));
    }
    var bytes := fs.Read(key.publicPath);
    if bytes.Err? {
      return Err(bytes.error);
    }
    var text := DecodeText(bytes.value);
    if text.None? {
      return Err(Io("stream did not contain valid UTF-8"));
    }
    var parts := Tokens(text.value);
    if |parts| >= 2 {
      var w := fs.Write(key.publicPath, Utf8Encode(parts[0] + " " + parts[1] + " " + newComment));
      r := Ok(key.(comment := Some(newComment)));
    } else {
      r := Err(InvalidKeyFormat("Invalid public key format"));
    }
  }

  /** A missing public half is `KeyNotFound` and a line with fewer than two
      tokens is `InvalidKeyFormat`; in both cases nothing is written. */
  lemma CommentUpdateFailures(files: Files, key: SshKey, newComment: string)
    ensures key.publicPath !in files ==>
              CommentUpdate(files, key, newComment) == (Err(KeyNotFound(key.publicPath)), files)
    ensures key.publicPath in files && ReadText(files, key.publicPath).Ok?
            && |Tokens(ReadText(files, key.publicPath).value)| < 2 ==>
              CommentUpdate(files, key, newComment).0.Err?
              && CommentUpdate(files, key, newComment).0.error.InvalidKeyFormat?
              && CommentUpdate(files, key, newComment).1 == files
  {
  }

  /** After a successful update with an ASCII comment, the public key line
      parses to the same fingerprint as before, and its comment is the new
      comment with its whitespace runs collapsed to single spaces (none if the
      new comment is blank); only the public file changed, and the key's
      recorded comment is the new comment verbatim. */
  lemma CommentUpdateReparses(files: Files, key: SshKey, newComment: string)
    requires IsAscii(newComment)
    requires CommentUpdate(files, key, newComment).0.Ok?
    ensures var (r, files') := CommentUpdate(files, key, newComment);
            && r.value.comment == Some(newComment)
            && files'.Keys == files.Keys
            && (forall p :: p in files && p != key.publicPath ==> files'[p] == files[p])
            && ParsePublicKey(files', key.publicPath).Ok?
            && ParsePublicKey(files', key.publicPath).value.0 == ParsePublicKey(files, key.publicPath).value.0
            && ParsePublicKey(files', key.publicPath).value.1
               == (if Tokens(newComment) == [] then None else Some(JoinSpace(Tokens(newComment))))
  {
    CommentUpdateReadsBack(files, key, newComment);
    var parts := Tokens(ReadText(files, key.publicPath).value);
    LineTokens(parts[0], parts[1], newComment);
    if |Tokens(newComment)| > 0 {
      TokensOfJoinSpace(Tokens(newComment));
    }
  }

  /** The rewritten public half reads back as the first two fields of the
      old line, a space, and the new comment. */
  lemma CommentUpdateReadsBack(files: Files, key: SshKey, newComment: string)
    requires IsAscii(newComment)
    requires CommentUpdate(files, key, newComment).0.Ok?
    ensures var parts := Tokens(ReadText(files, key.publicPath).value);
            && |parts| >= 2
            && ReadText(CommentUpdate(files, key, newComment).1, key.publicPath)
               == Ok(parts[0] + " " + parts[1] + " " + newComment)
  {
    var content := ReadText(files, key.publicPath).value;
    var parts := Tokens(content);
    var line := parts[0] + " " + parts[1] + " " + newComment;
    TokenIsAscii(content, 0);
    TokenIsAscii(content, 1);
    LineIsAscii(parts[0], parts[1], newComment);
    DecodeEncode(line);
  }

  /** The rewritten line keeps the first two tokens and then holds the tokens
      of the new comment. */
  lemma LineTokens(t0: string, t1: string, c: string)
    requires IsToken(t0) && IsToken(t1)
    ensures Tokens(t0 + " " + t1 + " " + c) == [t0, t1] + Tokens(c)
  {
    var tail := " " + c;
    var mid := t1 + tail;
    var head := " " + mid;
    assert t0 + " " + t1 + " " + c == t0 + head;
    TokensOfTokenThen(t0, head);
    SkipSpace(mid);
    TokensOfTokenThen(t1, tail);
    SkipSpace(c);
  }

  lemma SkipSpace(s: string)
    ensures Tokens(" " + s) == Tokens(s)
  {
    assert (" " + s)[1..] == s;
  }

  lemma LineIsAscii(t0: string, t1: string, c: string)
    requires IsAscii(t0) && IsAscii(t1) && IsAscii(c)
    ensures IsAscii(t0 + " " + t1 + " " + c)
  {
    var line := t0 + " " + t1 + " " + c;
    forall i | 0 <= i < |line| ensures line[i] < '\U{80}' {
      if i < |t0| {
        assert line[i] == t0[i];
      } else if i == |t0| {
      } else if i < |t0| + 1 + |t1| {
        assert line[i] == t1[i - |t0| - 1];
      } else if i == |t0| + 1 + |t1| {
      } else {
        assert line[i] == c[i - |t0| - 2 - |t1|];
      }
    }
  }

  /** Every token of ASCII text is ASCII. */
  lemma {:induction false} TokenIsAscii(s: string, k: nat)
    requires IsAscii(s)
    requires k < |Tokens(s)|
    ensures IsAscii(Tokens(s)[k])
    decreases |s|
  {
    if IsWhitespace(s[0]) {
      TokenIsAscii(s[1..], k);
    } else {
      var n := WordLength(s);
      if k > 0 {
        TokenIsAscii(s[n..], k - 1);
      }
    }
  }
}
