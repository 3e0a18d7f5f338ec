/** The capability interface of the homomorphic-encryption engine (SEAL's BFV scheme with
    batching). The engine's internals are not modelled: its values are uninterpreted types
    and its operations are the function fields of an `Engine`. What the receiver relies on
    is stated as predicates over an engine, and taken as hypotheses where needed. */
module HeEngine {
  import opened FixedWidth

  /** Key material. */
  type SecretKey(!new)
  type PublicKey(!new)
  type RelinKeys(!new)

  /** A batch-encoded polynomial. */
  type Plaintext(!new)

  /** The polynomials of a ciphertext that actually holds an encryption. */
  type CipherData(!new)

  /** A SEAL `Ciphertext`: a default-constructed one has `size() == 0`; anything the
      encryptor or the sender's evaluator produced carries data. */
  datatype Ciphertext = Empty | Full(data: CipherData)

  /** What the key generator returns for one session. */
  datatype KeySet = KeySet(sk: SecretKey, pk: PublicKey, relin: RelinKeys)

  /** One configured engine (one `poly_mod_degree`). `keyGen` and `encrypt` take the random
      choices they make as a `nat` parameter, so each call may draw fresh randomness. */
  datatype Engine = Engine(
    slotCount: nat,
    keyGen: nat -> KeySet,
    encode: seq<UInt64> -> Plaintext,
    decode: Plaintext -> seq<UInt64>,
    encrypt: (Plaintext, PublicKey, nat) -> CipherData,
    decrypt: (CipherData, SecretKey) -> Plaintext,
    noiseBudget: (CipherData, SecretKey) -> Int32)

  /** Correct decryption under a key pair: decoding the decryption of the encryption of the
      encoding of a full slot vector gives that vector back, whatever randomness the
      encryption used. */
  ghost predicate RoundTrip(e: Engine, sk: SecretKey, pk: PublicKey)
  {
    forall v: seq<UInt64>, coins: nat ::
      |v| == e.slotCount ==> e.decode(e.decrypt(e.encrypt(e.encode(v), pk, coins), sk)) == v
  }

  /** The batch decoder always produces a full slot vector. */
  ghost predicate DecodesFullVectors(e: Engine)
  {
    forall p: Plaintext :: |e.decode(p)| == e.slotCount
  }

  /** The engine behaves as the receiver assumes: every generated key pair round-trips,
      and decoding yields `slotCount` values. */
  ghost predicate Sound(e: Engine)
  {
    && DecodesFullVectors(e)
    && forall seed: nat :: RoundTrip(e, e.keyGen(seed).sk, e.keyGen(seed).pk)
  }
}
