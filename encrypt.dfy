/** The passphrase encryption service. The envelope is a symbolic stand-in
    for the age v1 format with a scrypt recipient: a fixed header, a stanza
    that identifies the passphrase, a per-call random salt, then the payload.
    It keeps the contract callers rely on (round trip, wrong passphrase and
    foreign input fail with distinct errors, fresh salt gives a fresh
    envelope), not the cryptography itself. */
module Encryption {
  import opened Common
  import opened Wire

  /** "age-encryption.org/v1\n" */
  const Header: Bytes :=
    [97, 103, 101, 45, 101, 110, 99, 114, 121, 112, 116, 105, 111, 110, 46,
     111, 114, 103, 47, 118, 49, 10]

  const SaltLength: nat := 16

  /** `encrypt_with_passphrase`; `salt` is the randomness drawn for this call. */
  function EncryptWithPassphrase(data: Bytes, passphrase: string, salt: Bytes): (env: Bytes)
    requires |salt| == SaltLength
    ensures |env| > |data| + SaltLength
  {
    Header + EncString(passphrase) + salt + data
  }

  /** `decrypt_with_passphrase`: input without the header, or with a damaged
      stanza or salt, is an `Encryption` error ("not a backup file"); a
      well-formed envelope for another passphrase is `InvalidPassphrase`. */
  function DecryptWithPassphrase(env: Bytes, passphrase: string): (r: Result<Bytes>)
    ensures r.Err? ==> r.error == InvalidPassphrase || r.error.Encryption?
    ensures r.Ok? ==> |Header| <= |env| && env[..|Header|] == Header
                      && DecString(env[|Header|..]).Some? && DecString(env[|Header|..]).value.0 == passphrase
  {
    if |env| < |Header| || env[..|Header|] != Header then
      Err(Encryption("Header is invalid"))
    else match DecString(env[|Header|..])
      case None => Err(Encryption("Header is invalid"))
      case Some((stanza, rest)) =>
        if stanza != passphrase then Err(InvalidPassphrase)
        else if |rest| < SaltLength then Err(Encryption("Header is invalid"))
        else Ok(rest[SaltLength..])
  }

  lemma EnvelopeLayout(data: Bytes, passphrase: string, salt: Bytes)
    requires |salt| == SaltLength
    ensures var env := EncryptWithPassphrase(data, passphrase, salt);
            env[..|Header|] == Header &&
            env[|Header|..] == EncString(passphrase) + (salt + data)
  {
    var env := EncryptWithPassphrase(data, passphrase, salt);
    assert env == Header + (EncString(passphrase) + (salt + data));
  }

  /** Decrypting with the passphrase used to encrypt gives the data back. */
  lemma DecryptEncrypt(data: Bytes, passphrase: string, salt: Bytes)
    requires |salt| == SaltLength
    ensures DecryptWithPassphrase(EncryptWithPassphrase(data, passphrase, salt), passphrase) == Ok(data)
  {
    EnvelopeLayout(data, passphrase, salt);
    DecEncString(passphrase, salt + data);
    assert (salt + data)[SaltLength..] == data;
  }

  /** Any other passphrase fails closed with `InvalidPassphrase` and yields
      no plaintext. */
  lemma WrongPassphraseFails(data: Bytes, passphrase: string, salt: Bytes, other: string)
    requires |salt| == SaltLength
    requires other != passphrase
    ensures DecryptWithPassphrase(EncryptWithPassphrase(data, passphrase, salt), other) == Err(InvalidPassphrase)
  {
    EnvelopeLayout(data, passphrase, salt);
    DecEncString(passphrase, salt + data);
  }

  /** Bytes that do not start with the header are "not a backup file",
      whatever the passphrase. */
  lemma ForeignInputIsFormatError(env: Bytes, passphrase: string)
    requires |env| < |Header| || env[..|Header|] != Header
    ensures DecryptWithPassphrase(env, passphrase).Err?
    ensures DecryptWithPassphrase(env, passphrase).error.Encryption?
  {
  }

  /** Two encryptions of the same data under the same passphrase differ
      whenever their salts differ. */
  lemma FreshSaltFreshEnvelope(data: Bytes, passphrase: string, salt1: Bytes, salt2: Bytes)
    requires |salt1| == SaltLength && |salt2| == SaltLength && salt1 != salt2
    ensures EncryptWithPassphrase(data, passphrase, salt1) != EncryptWithPassphrase(data, passphrase, salt2)
  {
    var k := |Header| + |EncString(passphrase)|;
    var e1 := EncryptWithPassphrase(data, passphrase, salt1);
    var e2 := EncryptWithPassphrase(data, passphrase, salt2);
    assert e1[k..k + SaltLength] == salt1;
    assert e2[k..k + SaltLength] == salt2;
  }
}
