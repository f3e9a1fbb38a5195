/**
 * The "base64url" encoding of section 5 of RFC 4648 (the alphabet with '-' and
 * '_' in place of '+' and '/'), with '=' padding, as java.util.Base64's URL
 * encoder produces it, and the matching decoder.
 */
module Base64Url {
  import opened Wrappers
  import opened Bytes

  /** The 64 characters of the URL- and filename-safe alphabet. */
  predicate IsAlphabet(c: char) {
    ('A' <= c <= 'Z') || ('a' <= c <= 'z') || ('0' <= c <= '9') || c == '-' || c == '_'
  }

  function CharOf(i: int): (c: char)
    requires 0 <= i < 64
    ensures IsAlphabet(c) && IndexOf(c) == i
  {
    if i < 26 then ('A' as int + i) as char
    else if i < 52 then ('a' as int + (i - 26)) as char
    else if i < 62 then ('0' as int + (i - 52)) as char
    else if i == 62 then '-'
    else '_'
  }

  function IndexOf(c: char): int {
    if 'A' <= c <= 'Z' then c as int - 'A' as int
    else if 'a' <= c <= 'z' then c as int - 'a' as int + 26
    else if '0' <= c <= '9' then c as int - '0' as int + 52
    else if c == '-' then 62
    else 63
  }

  lemma IndexOfRange(c: char)
    requires IsAlphabet(c)
    ensures 0 <= IndexOf(c) < 64
  {
  }

  /** The four sextets of three octets, most significant first. */
  function Sextet0(x: int): (r: int)
    requires 0 <= x < 256
    ensures 0 <= r < 64
  {
    x / 4
  }

  function Sextet1(x: int, y: int): (r: int)
    requires 0 <= x < 256 && 0 <= y < 256
    ensures 0 <= r < 64
  {
    (x % 4) * 16 + y / 16
  }

  function Sextet2(y: int, z: int): (r: int)
    requires 0 <= y < 256 && 0 <= z < 256
    ensures 0 <= r < 64
  {
    (y % 16) * 4 + z / 64
  }

  function Sextet3(z: int): (r: int)
    requires 0 <= z < 256
    ensures 0 <= r < 64
  {
    z % 64
  }

  /** Regrouping the sextets into octets gives the octets back. */
  lemma Regroup(x: int, y: int, z: int)
    requires 0 <= x < 256 && 0 <= y < 256 && 0 <= z < 256
    ensures Sextet0(x) * 4 + Sextet1(x, y) / 16 == x
    ensures (Sextet1(x, y) % 16) * 16 + Sextet2(y, z) / 4 == y
    ensures (Sextet2(y, z) % 4) * 64 + Sextet3(z) == z
  {
  }

  /** Three octets as four characters. */
  function EncodeGroup(b0: byte, b1: byte, b2: byte): string {
    var x, y, z := b0 as int, b1 as int, b2 as int;
    [CharOf(Sextet0(x)), CharOf(Sextet1(x, y)), CharOf(Sextet2(y, z)), CharOf(Sextet3(z))]
  }

  /** Four characters for every three octets or part of three. */
  function EncodedLength(n: nat): nat {
    if n >= 3 then 4 + EncodedLength(n - 3) else if n == 0 then 0 else 4
  }

  /** The length as section 4 of RFC 4648 gives it: four characters per started group of three octets. */
  lemma {:induction false} EncodedLengthFormula(n: nat)
    ensures EncodedLength(n) == 4 * ((n + 2) / 3)
  {
    if n >= 3 {
      EncodedLengthFormula(n - 3);
      assert (n + 2) / 3 == (n - 1) / 3 + 1;
    }
  }

  /** The padded encoding: every three octets become four characters, a final one or two octets are padded with "==" or "=". */
  function Encode(b: Bytes): (s: string)
    ensures |s| == EncodedLength(|b|)
    decreases |b|
  {
    if |b| >= 3 then EncodeGroup(b[0], b[1], b[2]) + Encode(b[3..])
    else if |b| == 2 then
      var x, y := b[0] as int, b[1] as int;
      [CharOf(Sextet0(x)), CharOf(Sextet1(x, y)), CharOf(Sextet2(y, 0)), '=']
    else if |b| == 1 then
      var x := b[0] as int;
      [CharOf(Sextet0(x)), CharOf(Sextet1(x, 0)), '=', '=']
    else []
  }

  /** Four characters, each in the alphabet, as three octets. */
  function DecodeQuad(c0: char, c1: char, c2: char, c3: char): Option<Bytes> {
    if IsAlphabet(c0) && IsAlphabet(c1) && IsAlphabet(c2) && IsAlphabet(c3) then
      var i0, i1, i2, i3 := IndexOf(c0), IndexOf(c1), IndexOf(c2), IndexOf(c3);
      Some([(i0 * 4 + i1 / 16) as byte, ((i1 % 16) * 16 + i2 / 4) as byte, ((i2 % 4) * 64 + i3) as byte])
    else None
  }

  /** The last four characters, which may end in "==" (one octet) or "=" (two octets). */
  function DecodeLast(c0: char, c1: char, c2: char, c3: char): Option<Bytes> {
    if c2 == '=' && c3 == '=' then
      if IsAlphabet(c0) && IsAlphabet(c1) then
        Some([(IndexOf(c0) * 4 + IndexOf(c1) / 16) as byte])
      else None
    else if c3 == '=' then
      if IsAlphabet(c0) && IsAlphabet(c1) && IsAlphabet(c2) then
        var i0, i1, i2 := IndexOf(c0), IndexOf(c1), IndexOf(c2);
        Some([(i0 * 4 + i1 / 16) as byte, ((i1 % 16) * 16 + i2 / 4) as byte])
      else None
    else DecodeQuad(c0, c1, c2, c3)
  }

  function Decode(s: string): Option<Bytes>
    decreases |s|
  {
    if s == [] then Some([])
    else if |s| < 4 then None
    else if |s| == 4 then DecodeLast(s[0], s[1], s[2], s[3])
    else
      match DecodeQuad(s[0], s[1], s[2], s[3])
      case None => None
      case Some(head) =>
        match Decode(s[4..])
        case None => None
        case Some(tail) => Some(head + tail)
  }

  lemma GroupRoundTrip(b0: byte, b1: byte, b2: byte)
    ensures var g := EncodeGroup(b0, b1, b2);
      DecodeQuad(g[0], g[1], g[2], g[3]) == Some([b0, b1, b2])
  {
    Regroup(b0 as int, b1 as int, b2 as int);
  }

  lemma GroupNoPadding(b0: byte, b1: byte, b2: byte)
    ensures var g := EncodeGroup(b0, b1, b2);
      |g| == 4 && forall i :: 0 <= i < 4 ==> IsAlphabet(g[i])
  {
  }

  /** The last two octets, padded with "=", decode back. */
  lemma PairRoundTrip(b0: byte, b1: byte)
    ensures Decode(Encode([b0, b1])) == Some([b0, b1])
  {
    Regroup(b0 as int, b1 as int, 0);
  }

  /** The last octet, padded with "==", decodes back. */
  lemma SingleRoundTrip(b0: byte)
    ensures Decode(Encode([b0])) == Some([b0])
  {
    Regroup(b0 as int, 0, 0);
  }

  /** A full group followed by more characters decodes group by group. */
  lemma DecodeGroupThen(g: string, r: string, head: Bytes, tail: Bytes)
    requires |g| == 4 && DecodeQuad(g[0], g[1], g[2], g[3]) == Some(head)
    requires r != [] && Decode(r) == Some(tail)
    ensures Decode(g + r) == Some(head + tail)
  {
    assert (g + r)[4..] == r;
  }

  /** Decoding undoes encoding. */
  lemma {:induction false} DecodeEncode(b: Bytes)
    ensures Decode(Encode(b)) == Some(b)
    decreases |b|
  {
    if |b| >= 3 {
      var g := EncodeGroup(b[0], b[1], b[2]);
      GroupRoundTrip(b[0], b[1], b[2]);
      GroupNoPadding(b[0], b[1], b[2]);
      if |b| == 3 {
        assert Encode(b) == g + Encode([]);
        assert b == [b[0], b[1], b[2]];
      } else {
        DecodeEncode(b[3..]);
        DecodeGroupThen(g, Encode(b[3..]), [b[0], b[1], b[2]], b[3..]);
        assert [b[0], b[1], b[2]] + b[3..] == b;
      }
    } else if |b| == 2 {
      PairRoundTrip(b[0], b[1]);
      assert b == [b[0], b[1]];
    } else if |b| == 1 {
      SingleRoundTrip(b[0]);
      assert b == [b[0]];
    }
  }

  /** The number of '=' characters `Encode` appends. */
  function Padding(n: nat): (r: nat)
    ensures r < 3
  {
    if n >= 3 then Padding(n - 3) else if n == 0 then 0 else 3 - n
  }

  /** Everything before the padding is in the alphabet, and the padding is all '='. */
  lemma {:induction false} EncodeShape(b: Bytes)
    ensures var s := Encode(b);
      && Padding(|b|) <= |s|
      && (forall i :: 0 <= i < |s| - Padding(|b|) ==> IsAlphabet(s[i]))
      && (forall i :: |s| - Padding(|b|) <= i < |s| ==> s[i] == '=')
    decreases |b|
  {
    var s := Encode(b);
    if |b| >= 3 {
      GroupNoPadding(b[0], b[1], b[2]);
      EncodeShape(b[3..]);
      var g, r := EncodeGroup(b[0], b[1], b[2]), Encode(b[3..]);
      assert s == g + r;
      assert Padding(|b|) == Padding(|b[3..]|);
      forall i | 0 <= i < |s| - Padding(|b|) ensures IsAlphabet(s[i]) {
        if i >= 4 { assert s[i] == r[i - 4]; }
      }
      forall i | |s| - Padding(|b|) <= i < |s| ensures s[i] == '=' {
        assert s[i] == r[i - 4];
      }
    }
  }
}
