/**
  Sealing: validate, serialise, refuse a blob too large to install again, encrypt. The serialiser and
  the authenticated encryption are arbitrary functions.
 */
module Sealing {
  import opened Wrappers
  import opened Bytes
  import opened Keystore
  import opened Marks

  /** Magic 8, version 2, measurement digest 32, nonce 24; and the authentication tag. */
  const HEADER_LEN: nat := 66
  const TAG_LEN: nat := 16

  datatype SealError = BodyInvalid | NotSerialisable | BlobTooLarge | Encrypt

  datatype Sealer = Sealer(serialise: KeystoreBody -> Option<bytes>, encrypt: bytes -> Option<bytes>)

  function Sealed(s: Sealer, b: KeystoreBody): Result<bytes, SealError> {
    if !ValidBody(b) then Err(BodyInvalid)
    else match s.serialise(b)
         case None => Err(NotSerialisable)
         case Some(plain) =>
           if HEADER_LEN + |plain| + TAG_LEN > MAX_KEYSTORE_BLOB_SIZE then Err(BlobTooLarge)
           else match s.encrypt(plain)
                case None => Err(Encrypt)
                case Some(blob) => Ok(blob)
  }

  method SealBody(s: Sealer, b: KeystoreBody) returns (r: Result<bytes, SealError>)
    ensures r == Sealed(s, b)
  {
    hide ValidBody;
    if !ValidBody(b) {
      return Err(BodyInvalid);
    }
    var plain := s.serialise(b);
    if plain.None? {
      return Err(NotSerialisable);
    }
    if HEADER_LEN + |plain.value| + TAG_LEN > MAX_KEYSTORE_BLOB_SIZE {
      return Err(BlobTooLarge);
    }
    var blob := s.encrypt(plain.value);
    if blob.None? {
      return Err(Encrypt);
    }
    r := Ok(blob.value);
  }

  /** The serialised body carries at least the bytes of its marks. */
  ghost predicate CarriesMarks(s: Sealer) {
    forall b | ValidBody(b) && s.serialise(b).Some? :: |MarksPayload(MarksOf(b))| <= |s.serialise(b).value|
  }

  /** What seals has marks that fit a marks reply, with room to spare. */
  lemma {:induction false} SealedMarksFit(s: Sealer, b: KeystoreBody)
    requires CarriesMarks(s) && Sealed(s, b).Ok?
    ensures ValidBody(b) && MarksFit(b)
    ensures |MarksPayload(MarksOf(b))| + HEADER_LEN + TAG_LEN <= MAX_MARKS_PAYLOAD_LEN
  {
    hide ValidBody, MarksPayload, MarksOf;
  }
}
