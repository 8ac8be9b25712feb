/**
  The cryptographic primitives the protocol logic depends on, as uninterpreted functions.

  Nothing is assumed about them here. Where a theorem needs unforgeability or collision freedom it
  says so in its own hypotheses, and only for the finitely many messages that occur.
 */
module Crypto {
  import opened Bytes

  /**
    `verify(key, message, signature)` is Ed25519 `verify_strict`, with a key that does not decode
    counted as a signature that does not verify; `sha3` is SHA3-256, `sha3Wide`
    SHA3-512 and `keccak` Keccak-256.
   */
  datatype Primitives = Primitives(
    verify: (bytes32, bytes, bytes64) -> bool,
    sha3: bytes -> bytes32,
    sha3Wide: bytes -> bytes64,
    keccak: bytes -> bytes32)
}
