/**
 * Primary keys of accounts, sessions and audit records (utils/IdGenerator.java):
 * 16 random octets, base64url-encoded and cut to 22 characters. The random
 * octets are a parameter.
 */
module IdGenerator {
  import opened Wrappers
  import opened Bytes
  import opened Base64Url

  const KEY_BYTES := 16
  const KEY_LENGTH := 22

  function Generate(keyBytes: Bytes): (key: string)
    requires |keyBytes| == KEY_BYTES
    ensures |key| == KEY_LENGTH
    ensures forall i :: 0 <= i < |key| ==> IsAlphabet(key[i])
  {
    EncodeShape(keyBytes);
    Encode(keyBytes)[..KEY_LENGTH]
  }

  /** An id never holds '=', '+' or '/', so it is safe in a URL path. */
  lemma GenerateUrlSafe(keyBytes: Bytes, i: int)
    requires |keyBytes| == KEY_BYTES && 0 <= i < KEY_LENGTH
    ensures Generate(keyBytes)[i] !in {'=', '+', '/'}
  {
  }

  /** The cut removes exactly the "==" padding of the 24-character encoding. */
  lemma GenerateDropsOnlyPadding(keyBytes: Bytes)
    requires |keyBytes| == KEY_BYTES
    ensures Generate(keyBytes) + "==" == Encode(keyBytes)
  {
    EncodeShape(keyBytes);
    var s := Encode(keyBytes);
    assert s[22] == '=' && s[23] == '=';
    assert s == s[..22] + s[22..];
  }

  /** So re-padding and decoding an id gives back its 16 octets: no information is lost. */
  lemma GenerateDecodes(keyBytes: Bytes)
    requires |keyBytes| == KEY_BYTES
    ensures Decode(Generate(keyBytes) + "==") == Some(keyBytes)
  {
    GenerateDropsOnlyPadding(keyBytes);
    DecodeEncode(keyBytes);
  }

  /** Distinct random octets give distinct ids. */
  lemma GenerateInjective(a: Bytes, b: Bytes)
    requires |a| == KEY_BYTES && |b| == KEY_BYTES
    requires Generate(a) == Generate(b)
    ensures a == b
  {
    GenerateDecodes(a);
    GenerateDecodes(b);
  }
}
