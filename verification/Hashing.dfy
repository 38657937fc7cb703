/** SHA-256 as the platform sees it: a function from text to 64 hexadecimal characters. */
module Hashing {

  predicate HexChar(c: char) {
    '0' <= c <= '9' || 'a' <= c <= 'f'
  }

  /** What `hexdigest` returns. */
  type Digest = d: string | |d| == 64 && forall i :: 0 <= i < 64 ==> HexChar(d[i])
    witness seq(64, _ => '0')

  type Sha256 = string -> Digest
}
