// Bytes, options and the cache file name: the vocabulary every other module uses.
module Basics {
  datatype Option<+T> = None | Some(value: T)

  type byte = b: int | 0 <= b < 256
  type Bytes = seq<byte>

  const NEWLINE: byte := 10
  const SPACE: byte := 32

  /** The bytes of a text. */
  function Ascii(s: string): (bytes: Bytes)
    requires forall i :: 0 <= i < |s| ==> s[i] as int < 256
    ensures |bytes| == |s| && forall i :: 0 <= i < |s| ==> bytes[i] as char == s[i]
  {
    seq(|s|, i requires 0 <= i < |s| => s[i] as int)
  }
}

/** The name of a cache file: the path's SHA-256 digest printed as 64 lower-case hex digits.
    The digest itself is a parameter; only its 32-byte width is used here. */
module Hashing {
  import opened Basics

  const DIGEST_LENGTH := 32
  const NAME_LENGTH := 64

  type Digest = d: Bytes | |d| == DIGEST_LENGTH witness seq(DIGEST_LENGTH, _ => 0)

  function HexDigit(n: int): (c: byte)
    requires 0 <= n < 16
  {
    if n < 10 then 48 + n else 87 + n
  }

  function HexValue(c: byte): (n: int)
    ensures 0 <= n < 16
  {
    if 48 <= c <= 57 then c - 48 else if 97 <= c <= 102 then c - 87 else 0
  }

  function Hex(d: Bytes): (s: Bytes)
    ensures |s| == 2 * |d|
    ensures NEWLINE !in s
  {
    if d == [] then []
    else Hex(d[..|d| - 1]) + [HexDigit(d[|d| - 1] / 16), HexDigit(d[|d| - 1] % 16)]
  }

  /** The reader of a hex string, the partner of Hex. */
  function UnHex(s: Bytes): (d: Bytes)
  {
    if |s| < 2 then []
    else UnHex(s[..|s| - 2]) + [HexValue(s[|s| - 2]) * 16 + HexValue(s[|s| - 1])]
  }

  /** No two digests share a name, because the digest can be read back from the name. */
  lemma {:induction false} HexRoundTrip(d: Bytes)
    ensures UnHex(Hex(d)) == d
  {
    if d == [] {
    } else {
      var s := Hex(d);
      assert s[..|s| - 2] == Hex(d[..|d| - 1]);
      HexRoundTrip(d[..|d| - 1]);
      assert d == d[..|d| - 1] + [d[|d| - 1]];
    }
  }

  /** Two lower-case digits a byte, the high half first, zeros included. */
  lemma {:induction false} HexDigits(d: Bytes, i: nat)
    requires i < |d|
    ensures Hex(d)[2 * i] as char == "0123456789abcdef"[d[i] / 16]
    ensures Hex(d)[2 * i + 1] as char == "0123456789abcdef"[d[i] % 16]
  {
    var front, last := d[..|d| - 1], d[|d| - 1];
    if i == |front| {
      HexDigitIs(last / 16);
      HexDigitIs(last % 16);
    } else {
      HexDigits(front, i);
    }
  }

  lemma HexDigitIs(n: int)
    requires 0 <= n < 16
    ensures HexDigit(n) as char == "0123456789abcdef"[n]
  {
  }

  function Name(sha: Bytes -> Digest, path: Bytes): (name: Bytes)
    ensures |name| == NAME_LENGTH && NEWLINE !in name
  {
    Hex(sha(path))
  }

  /** Paths get separate cache files exactly when the digest separates them. */
  lemma NamesCollideIff(sha: Bytes -> Digest, p: Bytes, q: Bytes)
    ensures Name(sha, p) == Name(sha, q) <==> sha(p) == sha(q)
  {
    HexRoundTrip(sha(p));
    HexRoundTrip(sha(q));
  }

  /** The printing loop of hashpath. */
  method HashPath(sha: Bytes -> Digest, path: Bytes) returns (name: Bytes)
    ensures name == Name(sha, path) && |name| == 64
    ensures forall i :: 0 <= i < 32 ==>
      name[2 * i] as char == "0123456789abcdef"[sha(path)[i] / 16] && name[2 * i + 1] as char == "0123456789abcdef"[sha(path)[i] % 16]
  {
    var hash := sha(path);
    name := [];
    for i := 0 to DIGEST_LENGTH
      invariant name == Hex(hash[..i])
    {
      assert hash[..i + 1][..i] == hash[..i];
      name := name + [HexDigit(hash[i] / 16), HexDigit(hash[i] % 16)];
    }
    assert hash[..DIGEST_LENGTH] == hash;
    forall i | 0 <= i < 32
      ensures name[2 * i] as char == "0123456789abcdef"[hash[i] / 16] && name[2 * i + 1] as char == "0123456789abcdef"[hash[i] % 16]
    {
      HexDigits(hash, i);
    }
  }
}
