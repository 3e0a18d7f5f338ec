# Receiver side of a homomorphic-encryption PSI protocol, in Dafny

This project models the receiver of cpPSI, a two-party Private Set Intersection scheme built
on SEAL's batched BFV encryption. The receiver packs its integer-encoded dataset into the
slots of one plaintext vector, encrypts it under its public key and hands the ciphertext to the
sender. The sender (not modelled) returns a ciphertext whose slot `i` decrypts to zero exactly
when the receiver's element `i` is shared. The receiver decrypts that answer, decodes the slots,
keeps the string form of every element whose slot is zero, and records the engine's remaining
noise budget.

Files and modules:

- `wrappers.dfy` (`Wrappers`): `Option` and `Result`.
- `fixed_width.dfy` (`FixedWidth`): the C++ integer types (`uint64_t`, `size_t`, `long`, `int`)
  as subset types, and the two implicit conversions the source performs: the noise budget
  (`int`) stored as `size_t`, and a string length (`size_t`) stored as `long`.
- `he_engine.dfy` (`HeEngine`): the encryption engine as an `Engine` record of function fields
  over uninterpreted key, plaintext and ciphertext types. A default-constructed SEAL
  `Ciphertext` (`size() == 0`) is `Empty`. The round-trip guarantee
  decode(decrypt(encrypt(encode(v)))) = v is the predicate `RoundTrip`, taken as a hypothesis
  by the lemmas that need it. It is not an axiom.
- `holders.dfy` (`Holders`): the `Receiver` and `ComputationResult` holders of
  `src/utils/utils.h`, with their setters and getters as value updates.
- `packing.dfy` (`Packing`): the slot vector built in `crypt_dataset`.
- `zero_test.dfy` (`ZeroTest`): the zero-test scan of `decrypt_and_intersect`, with a
  reference definition (`ZeroIndices` then `Gather`) it is proved equal to.
- `receiver_protocol.dfy` (`ReceiverProtocol`): `setup_pk_sk`, `crypt_dataset`,
  `decrypt_and_intersect`, and end-to-end lemmas.

Modelling decisions:

- `src/utils/utils.h` and `src/lib/receiver.cpp` disagree. The header stores the dataset as a
  `vector<string>`. The .cpp reads `getDataset().getLongDataset()` and
  `.getStringDataset()` and calls `setRelinKeys` and a two-argument `ComputationResult`
  constructor, none of which the header declares. The model follows the .cpp. The dataset is a
  record `Dataset(strs, longs)` of two sequences, and `SetRecvDataset` takes that record.
  Element `i` of one corresponds to element `i` of the other. The dataset loader guarantees
  that alignment; the `Dataset` type does not enforce it. `bits_size` is taken from the length of `strs[0]`, as the header does with
  `dataset[0].length()`.
- Keys and `bits_size` are `Option`s. `None` is the default-constructed value: an empty SEAL
  key, or a `long` that was never assigned.
- SEAL rejects a default-constructed key when an `Encryptor` or `Decryptor` is built from
  it. The model returns `Failure(KeyNotSet)` there.
- Capacity. The packing loop (receiver.cpp:70-71) writes `batch_recv_matrix[index]` with no
  bound check. The zero-test loop (receiver.cpp:128-129) reads `pod_result[index]` with none
  either. Both are undefined behaviour once the dataset outgrows the slot vector. The source has
  no failure branch for this. The model adds one, `Failure(CapacityExceeded)`, in both
  `CryptDataset` and `DecryptAndIntersect`. The dataset is refused, never truncated.
- `|longs| <= |strs|` is a precondition of `DecryptAndIntersect`. The source reads
  `getStringDataset()[index]` only for an index whose slot decoded to zero
  (receiver.cpp:129-130), so it needs less: it stays defined whenever every slot at an index
  `>= |strs|` is non-zero. The precondition rests only on the loader's alignment guarantee,
  under which it always holds.
- An empty answer from the sender always gives noise 0, but it is not the only way to get 0. A
  non-empty answer is decrypted and the engine's noise reading is recorded, and that reading is
  itself 0 once the budget is exhausted. An empty dataset does not short-circuit decryption:
  with a non-empty answer the source still decrypts, selects nothing and records the engine's
  reading (receiver.cpp:102-141), and with an unset secret key it still fails.
  `EmptyDatasetAnyAnswer` states each case.
- The intersection is a sequence in dataset order, as the source's `vector<string>` is,
  not a set.

## Model

| member | source | states |
|---|---|---|
| FixedWidth.IntToSizeT | src/lib/receiver.cpp:141 | the stored noise budget is the `size_t` congruent to the engine's `int` reading modulo 2^64, and equals it whenever the reading is non-negative |
| FixedWidth.NarrowToLong | src/utils/utils.h:21 | the recorded width is the `long` congruent to the first string's length modulo 2^64, and equals the length when that is below 2^63 |
| Holders.SetBitsSize | src/utils/utils.h:25 | `getDatasetSize` then returns the given width; keys and dataset are unchanged |
| Holders.SetRecvDataset | src/utils/utils.h:18-22 | the dataset is stored exactly; a non-empty one sets the width to its first element's length, an empty one leaves the width unchanged; keys are unchanged; the width invariant holds afterwards |
| Holders.SetRecvSk | src/utils/utils.h:23 | `getRecvSk` returns the key set; every other field is unchanged |
| Holders.SetRecvPk | src/utils/utils.h:24 | `getRecvPk` returns the key set; every other field is unchanged |
| Holders.SetRelinKeys | src/lib/receiver.cpp:173 | the relinearization keys read back as set; every other field is unchanged |
| Holders.GetRecvSk | src/utils/utils.h:27 | returns the stored secret key: empty exactly when none was set, and storing it back leaves the receiver unchanged |
| Holders.GetRecvPk | src/utils/utils.h:28 | returns the stored public key: empty exactly when none was set, and storing it back leaves the receiver unchanged |
| Holders.GetRelinKeys | src/lib/receiver.cpp:173 | returns the stored relinearization keys: empty exactly when none was set, and storing them back leaves the receiver unchanged |
| Holders.GetRecvDataset | src/utils/utils.h:29 | returns the stored dataset, for every receiver: storing it back leaves the stored dataset unchanged, and the whole receiver unchanged when the width invariant holds |
| Holders.GetDatasetSize | src/utils/utils.h:30 | returns the stored element bit-width: unset exactly when never set, and storing it back leaves the receiver unchanged |
| Holders.ReceiverGetAfterSet | src/utils/utils.h:18-30 | each receiver getter returns what its setter stored: the dataset, both keys, the relinearization keys and the width |
| Holders.DatasetSizeIsFirstWidth | src/utils/utils.h:18-30 | after storing a non-empty dataset, `getDatasetSize` is its first element's length |
| Holders.DatasetSizeIsNotCount | src/utils/utils.h:30 | `getDatasetSize` reports the bit-width (2 for three 2-bit strings), not the element count |
| Holders.KeySettersKeepWidthInvariant | src/utils/utils.h:23-24 | setting a key never breaks the invariant tying the width to the first element |
| Holders.GetNoiseBudget | src/utils/utils.h:48 | returns the stored noise budget: storing it back leaves the result unchanged |
| Holders.GetIntersection | src/utils/utils.h:49 | returns the stored intersection: storing it back leaves the result unchanged |
| Holders.ResultGetAfterSet | src/utils/utils.h:45-49 | each result getter returns what its setter stored, and the other getter is unaffected |
| Holders.SetNoiseBudget | src/utils/utils.h:45 | `getNoiseBudget` returns the value set; the intersection is unchanged |
| Holders.SetIntersection | src/utils/utils.h:46 | `getIntersection` returns the value set; the noise budget is unchanged |
| Holders.SettersCommute | src/utils/utils.h:45-49 | populating a result through both setters, in either order, gives the result holding exactly those two values |
| Packing.Zeros | src/lib/receiver.cpp:64 | the initial slot vector has exactly `slotCount` slots, every one 0 |
| Packing.Pack | src/lib/receiver.cpp:62-71 | for a dataset that fits, the slot vector has exactly `slotCount` slots, slot `i` holds element `i`, and every later slot is 0 |
| Packing.UnpackPack | src/lib/receiver.cpp:64-71 | reading back the first `n` slots of the packed vector gives the dataset; the rest is all zeros |
| Packing.PackInjective | src/lib/receiver.cpp:70-71 | two equal-length datasets with the same packed vector are equal: packing loses nothing |
| Packing.PackSlots | src/lib/receiver.cpp:64-71 | the zero-initialise-then-write loop yields a `slotCount` vector whose prefix is the dataset and whose padding is zero |
| ZeroTest.ZeroIndices | src/lib/receiver.cpp:128-129 | the selected indices are strictly increasing, all below `n`, all with a zero slot, and include every such index |
| ZeroTest.Intersect | src/lib/receiver.cpp:128-130 | the scan yields at most `n` strings, each taken from the first `n` dataset strings |
| ZeroTest.IntersectIsGatherOfZeroIndices | src/lib/receiver.cpp:128-130 | the scan equals the dataset strings at exactly the zero-slot indices, in increasing index order |
| ZeroTest.IntersectMembership | src/lib/receiver.cpp:128-130 | a string is in the intersection if and only if some index below `n` holds it and has a zero slot |
| ZeroTest.ZeroIndicesExact | src/lib/receiver.cpp:128-129 | index `i` is selected if and only if `i < n` and slot `i` is zero |
| ZeroTest.ZeroIndicesIgnorePadding | src/lib/receiver.cpp:128 | slots at index `n` and beyond never influence the selection |
| ZeroTest.ScanZeroSlots | src/lib/receiver.cpp:128-130 | the push-back loop computes the strings at the zero-slot indices, in dataset order |
| ZeroTest.ThreeElementExample | src/lib/receiver.cpp:128-130 | strings "000", "001", "010" with slots 0, 5, 0 give the intersection "000", "010" |
| ReceiverProtocol.SetupKeys | src/lib/receiver.cpp:157-176 | the receiver holds the generated secret, public and relinearization keys and an empty dataset; on a sound engine that key pair round-trips |
| ReceiverProtocol.CryptDataset | src/lib/receiver.cpp:43-84 | the empty ciphertext exactly for an empty dataset; a missing public key or an oversized dataset is an error, each exactly in its case; otherwise the encryption of the encoded packed vector under the given public key and random choices |
| ReceiverProtocol.DecryptAndIntersect | src/lib/receiver.cpp:96-146 | an empty answer gives noise 0 and no elements; otherwise the dataset strings at the zero slots among the first `n`, in order, at most `n` of them, with the engine's noise reading as `size_t`; a missing secret key or a too-short slot vector is an error, each exactly in its case |
| ReceiverProtocol.DecodeSlots | src/lib/receiver.cpp:125-126 | on an engine that decodes full vectors the decoded answer has `slotCount` slots; an answer that encrypts `v` under a key pair that round-trips decodes to `v` |
| ReceiverProtocol.EmptyDatasetAnyAnswer | src/lib/receiver.cpp:102-141 | with an empty dataset nothing is selected; an empty answer gives noise 0, a non-empty one the engine's noise reading, and an unset secret key fails |
| ReceiverProtocol.EncryptedDatasetRoundTrips | src/lib/receiver.cpp:70-76 | decrypting the encrypted dataset under a matching key gives `slotCount` slots: the dataset first, zeros after |
| ReceiverProtocol.HonestSenderYieldsSharedElements | src/lib/receiver.cpp:125-130 | against a sender whose slot `i` is zero exactly for shared elements, a string is in the result if and only if some element holding it is shared |
| ReceiverProtocol.IdentitySenderSelectsZeroEncodings | src/lib/receiver.cpp:70-141 | encrypting and then decrypting the receiver's own ciphertext yields exactly the elements whose encoding is 0, in order, with the engine's noise reading |
| ReceiverProtocol.SessionSelectsZeroEncodings | src/lib/receiver.cpp:43-146 | a whole session on a sound engine (setup, dataset, encrypt, identity sender, decrypt) ends with exactly the zero-encoded elements; an empty dataset ends with the empty result |
| ReceiverProtocol.OversizedDatasetIsRefused | src/lib/receiver.cpp:70-71 | a dataset of `slotCount + 1` elements fails with `CapacityExceeded` and is not truncated |
| ReceiverProtocol.NoiseBudgetRecorded | src/lib/receiver.cpp:140-141 | the recorded noise budget equals the engine's reading whenever that reading is non-negative |

## Left out

- SEAL internals (`get_params`, `SEALContext`, `KeyGenerator`, `Encryptor`, `Decryptor`,
  `BatchEncoder`, `invariant_noise_budget`): foreign library code. They are function fields of
  `Engine`, and only the round-trip and full-decode properties are assumed of them.
- The choice of engine from `poly_mod_degree`: the engine is a parameter of each operation.
- The randomness of key generation and of encryption: `keyGen` and `encrypt` each take their
  random choices as a `nat` parameter, and `CryptDataset` passes the encryptor's choices through.
- The plaintext modulus. SEAL's batch encoder rejects slot values at or above it; `RoundTrip`
  is assumed for every 64-bit slot vector.
- `print_intersection`, `write_result_on_file`, the "intersection is null" message and all
  `RECV_AUDIT` logging: console and file output.
- The abort path through `print_intersection`. `decrypt_and_intersect` calls it whenever the
  intersection is non-empty (receiver.cpp:135-136). Its `stoull(s, 0, 2)` (receiver.cpp:201)
  throws for a selected string with no binary digit after optional leading whitespace and sign
  (`""`, `"x"`), and for one whose value exceeds 2^64-1. Trailing characters after the digits
  do not make it throw. That exception aborts `decrypt_and_intersect`, where the model returns
  `Success`. The model assumes bit-strings whose value fits in 64 bits, as their `uint64_t`
  encoding implies; such strings never take this path.
- `convert_dataset` and `bitstring_to_long_dataset`: file ingestion, and only their prototypes exist.
- `src/lib/receiver.h`: prototypes only, with signatures that do not match the definitions.
- The unused `row_size`, the redundant `size() > 0` guard before encoding, and the value read
  by `getSigmaLength()` in `decrypt_and_intersect`, which is never used.
- The fixed-width assumption (every element as long as the first). The source never checks it.
- A trust flag for a zero noise budget. The source records the budget and does not act on it.
- WidthOf: counts characters, while `std::string::length()` (utils.h:21) counts bytes. The two
  agree on the '0'/'1' bit-strings the loader produces, and the model does not encode strings
  as bytes.
- C++ pass-by-value copies of `Receiver` and `Ciphertext`. Values are immutable here, so the
  copies cannot be observed.
