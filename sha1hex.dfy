/** `PrintSha1` (updater/install.c): a SHA-1 digest rendered as a
    NUL-terminated string of lower-case hex digits, two per byte, high
    nibble first.  The hashing itself is not part of this model; the digest
    is an input. */
module Sha1Hex {

  const SHA_DIGEST_SIZE := 20
  const ALPHABET := "0123456789abcdef"

  /** The hex digit of a nibble. */
  function HexDigit(n: bv8): (c: char)
    requires n < 16
  {
    ALPHABET[n as int]
  }

  /** The hex text of a byte string: for each byte the digit of its high
      nibble, `(b >> 4) & 0xf`, then that of its low nibble, `b & 0xf`. */
  function HexOf(d: seq<bv8>): (s: string)
    ensures |s| == 2 * |d|
  {
    if d == [] then [] else [HexDigit((d[0] >> 4) & 0xf), HexDigit(d[0] & 0xf)] + HexOf(d[1..])
  }

  /** Character `2i` is the high nibble of byte `i` and character `2i + 1`
      its low nibble. */
  lemma {:induction false} HexOfAt(d: seq<bv8>, i: nat)
    requires i < |d|
    ensures HexOf(d)[2 * i] == ALPHABET[(d[i] >> 4) as int]
    ensures HexOf(d)[2 * i + 1] == ALPHABET[(d[i] & 0xf) as int]
    decreases i
  {
    assert (d[0] >> 4) & 0xf == d[0] >> 4;
    if i > 0 {
      HexOfAt(d[1..], i - 1);
    }
  }

  /** The alphabet spelled out: '0'..'9' then 'a'..'f'. */
  lemma AlphabetAt(n: nat)
    requires n < 16
    ensures ALPHABET[n] == if n < 10 then ('0' as int + n) as char else ('a' as int + n - 10) as char
  {
  }

  predicate IsLowerHex(c: char) {
    '0' <= c <= '9' || 'a' <= c <= 'f'
  }

  /** Every character is a lower-case hex digit. */
  lemma {:induction false} HexOfLowerHex(d: seq<bv8>)
    ensures forall k :: 0 <= k < |HexOf(d)| ==> IsLowerHex(HexOf(d)[k])
    decreases |d|
  {
    if d != [] {
      HexOfLowerHex(d[1..]);
      var s := HexOf(d);
      AlphabetAt(((d[0] >> 4) & 0xf) as int);
      AlphabetAt((d[0] & 0xf) as int);
      assert forall k :: 2 <= k < |s| ==> s[k] == HexOf(d[1..])[k - 2];
    }
  }

  /** The nibble a lower-case hex digit stands for. */
  function NibbleOf(c: char): (n: bv8)
    requires IsLowerHex(c)
    ensures n < 16
  {
    if '0' <= c <= '9' then (c as int - '0' as int) as bv8
    else (c as int - 'a' as int + 10) as bv8
  }

  /** Reading a digit back gives its nibble. */
  lemma NibbleOfDigit(n: bv8)
    requires n < 16
    ensures IsLowerHex(HexDigit(n)) && NibbleOf(HexDigit(n)) == n
  {
    AlphabetAt(n as int);
  }

  /** Reading the hex text back, two digits per byte. */
  function FromHex(s: string): (d: seq<bv8>)
    requires |s| % 2 == 0
    requires forall k :: 0 <= k < |s| ==> IsLowerHex(s[k])
    ensures |d| * 2 == |s|
    decreases |s|
  {
    if s == [] then []
    else [(NibbleOf(s[0]) << 4) | NibbleOf(s[1])] + FromHex(s[2..])
  }

  /** Reference: the two nibbles of a byte put back together give it. */
  lemma NibblesJoin(b: bv8)
    ensures (((b >> 4) & 0xf) << 4) | (b & 0xf) == b
  {
  }

  /** One byte's two digits read back give the byte. */
  lemma ByteRoundTrip(b: bv8)
    ensures IsLowerHex(HexDigit((b >> 4) & 0xf)) && IsLowerHex(HexDigit(b & 0xf))
    ensures (NibbleOf(HexDigit((b >> 4) & 0xf)) << 4) | NibbleOf(HexDigit(b & 0xf)) == b
  {
    NibbleOfDigit((b >> 4) & 0xf);
    NibbleOfDigit(b & 0xf);
    NibblesJoin(b);
  }

  /** The hex text determines the digest: reading it back gives the bytes
      again, so different digests print differently. */
  lemma {:induction false} FromHexOf(d: seq<bv8>)
    ensures forall k :: 0 <= k < |HexOf(d)| ==> IsLowerHex(HexOf(d)[k])
    ensures FromHex(HexOf(d)) == d
    decreases |d|
  {
    HexOfLowerHex(d);
    if d != [] {
      var s := HexOf(d);
      FromHexOf(d[1..]);
      assert s[2..] == HexOf(d[1..]);
      ByteRoundTrip(d[0]);
      assert FromHex(s) == [d[0]] + FromHex(HexOf(d[1..]));
    }
  }

  lemma HexOfInjective(a: seq<bv8>, b: seq<bv8>)
    requires HexOf(a) == HexOf(b)
    ensures a == b
  {
    FromHexOf(a);
    FromHexOf(b);
  }

  /** `PrintSha1` fills a fresh buffer of `2 * SHA_DIGEST_SIZE + 1` chars
      two at a time and ends it with NUL. */
  method PrintSha1(digest: seq<bv8>) returns (buffer: array<char>)
    requires |digest| == SHA_DIGEST_SIZE
    ensures fresh(buffer)
    ensures buffer[..] == HexOf(digest) + ['\0']
  {
    buffer := new char[SHA_DIGEST_SIZE * 2 + 1];
    var i := 0;
    while i < SHA_DIGEST_SIZE
      invariant 0 <= i <= SHA_DIGEST_SIZE
      invariant forall k :: 0 <= k < 2 * i ==> buffer[k] == HexOf(digest)[k]
    {
      HexOfAt(digest, i);
      buffer[i * 2] := ALPHABET[((digest[i] >> 4) & 0xf) as int];
      buffer[i * 2 + 1] := ALPHABET[(digest[i] & 0xf) as int];
      i := i + 1;
    }
    buffer[i * 2] := '\0';
  }

  /** The printed text is exactly `2 * SHA_DIGEST_SIZE` lower-case hex
      digits before its NUL. */
  lemma PrintedLength(digest: seq<bv8>)
    requires |digest| == SHA_DIGEST_SIZE
    ensures |HexOf(digest) + ['\0']| == 41
    ensures forall k :: 0 <= k < 40 ==> IsLowerHex(HexOf(digest)[k])
  {
    HexOfLowerHex(digest);
  }
}
