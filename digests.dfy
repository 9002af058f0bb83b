/**
 * Decimal digits, and the hex digests the core names files by. The hash functions themselves are
 * parameters of the operations that use them; only the shape of what they
 * return is fixed here.
 */
module Digests {

  predicate IsDigit(c: char) { '0' <= c <= '9' }

  /** A lower-case hexadecimal digit (what `hexdigest()` produces). */
  predicate IsHexDigit(c: char) { '0' <= c <= '9' || 'a' <= c <= 'f' }

  predicate IsHex(s: string) { forall i :: 0 <= i < |s| ==> IsHexDigit(s[i]) }

  /** What `hashlib.md5(...).hexdigest()` returns. */
  type Md5Hex = s: string | |s| == 32 && IsHex(s) witness "00000000000000000000000000000000"

  /** What `hashlib.sha1(...).hexdigest()` returns. */
  type Sha1Hex = s: string | |s| == 40 && IsHex(s) witness "0000000000000000000000000000000000000000"
}
