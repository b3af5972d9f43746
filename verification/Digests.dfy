/** SHA-256 digests as the release files write them. */
module Digests {

  predicate LowerHex(c: char) {
    '0' <= c <= '9' || 'a' <= c <= 'f'
  }

  predicate Hex64(s: string) {
    |s| == 64 && forall i :: 0 <= i < |s| ==> LowerHex(s[i])
  }

  /** The same by character codes: 64 digits or letters from `a` to `f`. */
  predicate HexCodes(s: string) {
    |s| == 64 && forall i :: 0 <= i < |s| ==> 48 <= s[i] as int <= 57 || 97 <= s[i] as int <= 102
  }

  lemma HexMeans(s: string)
    ensures Hex64(s) <==> HexCodes(s)
  {
  }
}
