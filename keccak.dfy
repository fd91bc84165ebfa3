/**
 * The Keccak-256 primitive (`keccak_256` of js-sha3), left abstract. A
 * digest is rendered as 64 lower-case hex digits; the hash of a text is the
 * hash of its UTF-8 bytes. Both the hash and the encoding are parameters of
 * the model, so nothing is assumed about them beyond their types.
 */
module Keccak {
  import opened Numerals

  /** A 32-byte digest as `keccak_256` returns it: 64 lower-case hex digits. */
  type Digest = s: string | |s| == 64 && IsLowerHex(s)
    witness Zeros(64)

  /** `n` zero digits. */
  function Zeros(n: nat): (s: string)
    ensures |s| == n && IsLowerHex(s)
    ensures forall k :: 0 <= k < n ==> s[k] == '0'
  {
    seq(n, _ => '0')
  }

  /** Appending one zero byte. */
  lemma MoreZeros(n: nat)
    ensures Zeros(n) + "00" == Zeros(n + 2)
  {
    var a := Zeros(n) + "00";
    assert forall k :: 0 <= k < n + 2 ==> a[k] == '0';
  }

  /** 32 zero bytes in hex. */
  const ZERO_DIGEST: Digest := Zeros(64)

  /** The foreign primitives: UTF-8 encoding of a text, and Keccak-256 of bytes. */
  datatype Hasher = Hasher(utf8: string -> seq<byte>, keccak256: seq<byte> -> Digest)

  /** `keccak_256(text)`: the hash of the UTF-8 bytes of `text`. */
  function KeccakText(h: Hasher, text: string): Digest
  {
    h.keccak256(h.utf8(text))
  }
}
