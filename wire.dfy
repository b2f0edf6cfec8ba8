/** Self-delimiting byte encodings of the primitive values a backup holds
    (natural numbers, characters, strings, byte buffers and optional values),
    each with a decoder that consumes exactly what the encoder produced and
    hands back the rest of the input. */
module Wire {
  import opened Common

  /** Little-endian base-128: each byte carries seven bits, the high bit says
      whether more bytes follow. */
  function EncNat(n: nat): (b: Bytes)
    ensures |b| > 0
    decreases n
  {
    if n < 128 then [n as byte] else [(128 + n % 128) as byte] + EncNat(n / 128)
  }

  /** The decoded value and the unconsumed suffix of the input. */
  function DecNat(s: Bytes): (r: Option<(nat, Bytes)>)
    decreases |s|
  {
    if |s| == 0 then None
    else if s[0] < 128 then Some((s[0] as nat, s[1..]))
    else match DecNat(s[1..])
      case None => None
      case Some((m, rest)) => Some(((s[0] as int - 128) + 128 * m, rest))
  }

  lemma {:induction false} DecEncNat(n: nat, rest: Bytes)
    ensures DecNat(EncNat(n) + rest) == Some((n, rest))
    decreases n
  {
    if n >= 128 {
      var s := EncNat(n) + rest;
      assert s[0] == (128 + n % 128) as byte;
      assert s[1..] == EncNat(n / 128) + rest;
      DecEncNat(n / 128, rest);
    }
  }

  predicate IsScalarValue(n: int)
  {
    0 <= n < 0xD800 || 0xE000 <= n < 0x11_0000
  }

  /** A character is encoded as its Unicode scalar value. */
  function EncChar(c: char): Bytes
  {
    EncNat(c as int)
  }

  function DecChar(s: Bytes): (r: Option<(char, Bytes)>)
  {
    match DecNat(s)
    case None => None
    case Some((n, rest)) => if IsScalarValue(n) then Some((n as char, rest)) else None
  }

  lemma DecEncChar(c: char, rest: Bytes)
    ensures DecChar(EncChar(c) + rest) == Some((c, rest))
  {
    DecEncNat(c as int, rest);
  }

  function EncChars(s: string): Bytes
  {
    if s == [] then [] else EncChar(s[0]) + EncChars(s[1..])
  }

  /** Decodes exactly `n` characters. */
  function DecChars(n: nat, s: Bytes): (r: Option<(string, Bytes)>)
    ensures r.Some? ==> |r.value.0| == n
    decreases n
  {
    if n == 0 then Some(([], s))
    else match DecChar(s)
      case None => None
      case Some((c, rest)) =>
        match DecChars(n - 1, rest)
        case None => None
        case Some((cs, rest')) => Some(([c] + cs, rest'))
  }

  lemma {:induction false} DecEncChars(s: string, rest: Bytes)
    ensures DecChars(|s|, EncChars(s) + rest) == Some((s, rest))
  {
    if s == [] {
      assert EncChars(s) + rest == rest;
    } else {
      var tail := EncChars(s[1..]) + rest;
      assert EncChars(s) + rest == EncChar(s[0]) + tail;
      DecEncChar(s[0], tail);
      DecEncChars(s[1..], rest);
      assert DecChars(|s|, EncChars(s) + rest) == Some(([s[0]] + s[1..], rest));
      assert [s[0]] + s[1..] == s;
    }
  }

  /** A string is its length followed by its characters. */
  function EncString(s: string): (b: Bytes)
    ensures |b| > 0
  {
    EncNat(|s|) + EncChars(s)
  }

  function DecString(s: Bytes): (r: Option<(string, Bytes)>)
  {
    match DecNat(s)
    case None => None
    case Some((n, rest)) => DecChars(n, rest)
  }

  lemma DecEncString(s: string, rest: Bytes)
    ensures DecString(EncString(s) + rest) == Some((s, rest))
  {
    assert EncString(s) + rest == EncNat(|s|) + (EncChars(s) + rest);
    DecEncNat(|s|, EncChars(s) + rest);
    DecEncChars(s, rest);
  }

  /** No encoded string is a proper prefix of the encoding of another one:
      the encoding is self-delimiting and injective. */
  lemma EncStringPrefixFree(s: string, t: string, rest: Bytes, rest': Bytes)
    requires EncString(s) + rest == EncString(t) + rest'
    ensures s == t && rest == rest'
  {
    DecEncString(s, rest);
    DecEncString(t, rest');
  }

  /** A byte buffer is its length followed by the bytes themselves. */
  function EncBytes(b: Bytes): Bytes
  {
    EncNat(|b|) + b
  }

  function DecBytes(s: Bytes): (r: Option<(Bytes, Bytes)>)
  {
    match DecNat(s)
    case None => None
    case Some((n, rest)) => if n <= |rest| then Some((rest[..n], rest[n..])) else None
  }

  lemma DecEncBytes(b: Bytes, rest: Bytes)
    ensures DecBytes(EncBytes(b) + rest) == Some((b, rest))
  {
    assert EncBytes(b) + rest == EncNat(|b|) + (b + rest);
    DecEncNat(|b|, b + rest);
    assert (b + rest)[..|b|] == b && (b + rest)[|b|..] == rest;
  }

  /** An optional value is the tag 0, or the tag 1 followed by the value. */
  function EncOptString(o: Option<string>): Bytes
  {
    match o
    case None => [0]
    case Some(s) => [1] + EncString(s)
  }

  function DecOptString(s: Bytes): (r: Option<(Option<string>, Bytes)>)
  {
    if |s| == 0 then None
    else if s[0] == 0 then Some((None, s[1..]))
    else if s[0] == 1 then
      match DecString(s[1..])
      case None => None
      case Some((v, rest)) => Some((Some(v), rest))
    else None
  }

  lemma DecEncOptString(o: Option<string>, rest: Bytes)
    ensures DecOptString(EncOptString(o) + rest) == Some((o, rest))
  {
    match o
    case None =>
      assert ([0] + rest)[1..] == rest;
    case Some(v) =>
      DecEncSomeString(v, rest);
  }

  lemma DecEncSomeString(v: string, rest: Bytes)
    ensures DecOptString([1] + EncString(v) + rest) == Some((Some(v), rest))
  {
    var e := EncString(v) + rest;
    assert ([1] + EncString(v) + rest)[1..] == e;
    DecEncString(v, rest);
  }

  function EncOptBytes(o: Option<Bytes>): Bytes
  {
    match o
    case None => [0]
    case Some(b) => [1] + EncBytes(b)
  }

  function DecOptBytes(s: Bytes): (r: Option<(Option<Bytes>, Bytes)>)
  {
    if |s| == 0 then None
    else if s[0] == 0 then Some((None, s[1..]))
    else if s[0] == 1 then
      match DecBytes(s[1..])
      case None => None
      case Some((v, rest)) => Some((Some(v), rest))
    else None
  }

  lemma DecEncOptBytes(o: Option<Bytes>, rest: Bytes)
    ensures DecOptBytes(EncOptBytes(o) + rest) == Some((o, rest))
  {
    match o
    case None =>
      assert ([0] + rest)[1..] == rest;
    case Some(v) =>
      DecEncSomeBytes(v, rest);
  }

  lemma DecEncSomeBytes(v: Bytes, rest: Bytes)
    ensures DecOptBytes([1] + EncBytes(v) + rest) == Some((Some(v), rest))
  {
    var e := EncBytes(v) + rest;
    assert ([1] + EncBytes(v) + rest)[1..] == e;
    DecEncBytes(v, rest);
  }
}
