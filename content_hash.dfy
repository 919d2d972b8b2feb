/** Content-addressed identity.  hashlib.md5(bytes).hexdigest() is modelled
    by an injective stand-in with the same alphabet: the lower-case
    hexadecimal spelling of the bytes themselves.  The rest of the model
    relies only on two facts proved here: distinct contents get distinct
    digests, and a digest is made of hexadecimal digits only (so it never
    contains '_'). */
module ContentHash {

  type byte = x: int | 0 <= x < 256

  /** A lower-case hexadecimal digit */
  predicate IsHexDigit(c: char) {
    '0' <= c <= '9' || 'a' <= c <= 'f'
  }

  predicate IsHexDigest(h: string) {
    forall i :: 0 <= i < |h| ==> IsHexDigit(h[i])
  }

  /** The digit of value d */
  function HexDigit(d: int): (c: char)
    requires 0 <= d < 16
    ensures IsHexDigit(c)
  {
    if d < 10 then ('0' as int + d) as char else ('a' as int + d - 10) as char
  }

  /** A hexdigest, as the registries use it for keys */
  type Digest = h: string | IsHexDigest(h) witness ""

  /** The digit of position i: byte i / 2, high half first */
  function HexAt(content: seq<byte>, i: int): char
    requires 0 <= i < 2 * |content|
  {
    var b := content[i / 2];
    if i % 2 == 0 then HexDigit(b / 16) else HexDigit(b % 16)
  }

  /** The digest of a file's bytes (stand-in for md5(...).hexdigest()):
      two hexadecimal digits per byte */
  function Hash(content: seq<byte>): (h: Digest)
    ensures |h| == 2 * |content|
  {
    seq(2 * |content|, i requires 0 <= i < 2 * |content| => HexAt(content, i))
  }

  /** Distinct digit values have distinct digits */
  lemma {:induction false} HexDigitInjective(d: int, e: int)
    requires 0 <= d < 16 && 0 <= e < 16 && HexDigit(d) == HexDigit(e)
    ensures d == e
  {
    assert (HexDigit(d) as int) == (if d < 10 then '0' as int + d else 'a' as int + d - 10);
    assert (HexDigit(e) as int) == (if e < 10 then '0' as int + e else 'a' as int + e - 10);
  }

  /** The two digits of byte j give the byte back */
  lemma {:induction false} HashByte(a: seq<byte>, b: seq<byte>, j: int)
    requires |a| == |b| && 0 <= j < |a|
    requires Hash(a)[2 * j] == Hash(b)[2 * j] && Hash(a)[2 * j + 1] == Hash(b)[2 * j + 1]
    ensures a[j] == b[j]
  {
    assert (2 * j) / 2 == j && (2 * j) % 2 == 0 && (2 * j + 1) / 2 == j && (2 * j + 1) % 2 == 1;
    assert HexAt(a, 2 * j) == Hash(a)[2 * j] && HexAt(b, 2 * j) == Hash(b)[2 * j];
    assert HexAt(a, 2 * j + 1) == Hash(a)[2 * j + 1] && HexAt(b, 2 * j + 1) == Hash(b)[2 * j + 1];
    HexDigitInjective(a[j] / 16, b[j] / 16);
    HexDigitInjective(a[j] % 16, b[j] % 16);
  }

  /** Identical bytes, and only identical bytes, share a digest */
  lemma {:induction false} HashInjective(a: seq<byte>, b: seq<byte>)
    ensures Hash(a) == Hash(b) <==> a == b
  {
    if Hash(a) == Hash(b) {
      forall j | 0 <= j < |a| ensures a[j] == b[j] {
        HashByte(a, b, j);
      }
    }
  }

  /** A digest never contains the separator of the pair cache keys */
  lemma {:induction false} NoUnderscore(h: Digest)
    ensures '_' !in h
  {
  }
}
