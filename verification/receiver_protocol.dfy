/** The receiver's side of the PSI protocol: key setup, encryption of the packed dataset,
    and decryption of the sender's answer followed by the zero test. */
module ReceiverProtocol {
  import opened Wrappers
  import opened FixedWidth
  import opened HeEngine
  import opened Holders
  import opened Packing
  import opened ZeroTest

  /** Why a step aborts the session. `KeyNotSet`: the engine rejects a default-constructed
      key. `CapacityExceeded`: the dataset has more elements than there are slots. */
  datatype Error = KeyNotSet | CapacityExceeded

  /** Key setup: a fresh receiver holding one generated key set, with no dataset. */
  function SetupKeys(e: Engine, seed: nat): (recv: Receiver)
    ensures GetRecvSk(recv) == Some(e.keyGen(seed).sk)
    ensures GetRecvPk(recv) == Some(e.keyGen(seed).pk)
    ensures GetRelinKeys(recv) == Some(e.keyGen(seed).relin)
    ensures GetRecvDataset(recv) == EmptyDataset
    ensures Sound(e) ==> RoundTrip(e, e.keyGen(seed).sk, e.keyGen(seed).pk)
  {
    var keys := e.keyGen(seed);
    SetRelinKeys(SetRecvSk(SetRecvPk(FreshReceiver, keys.pk), keys.sk), keys.relin)
  }

  /** Encrypts the receiver's dataset as one batched ciphertext. An empty dataset yields the
      empty ciphertext without touching the engine; otherwise the public key must be set and
      the dataset must fit in the slots. `coins` are the encryptor's random choices. */
  function CryptDataset(e: Engine, recv: Receiver, coins: nat): (r: Result<Ciphertext, Error>)
    ensures r == Success(Empty) <==> |recv.dataset.longs| == 0
    ensures r == Failure(KeyNotSet) <==> |recv.dataset.longs| > 0 && recv.pk.None?
    ensures r == Failure(CapacityExceeded) <==>
              |recv.dataset.longs| > 0 && recv.pk.Some? && |recv.dataset.longs| > e.slotCount
    ensures r.Success? && r.value.Full? ==>
              |recv.dataset.longs| <= e.slotCount &&
              r.value.data == e.encrypt(e.encode(Pack(recv.dataset.longs, e.slotCount)), recv.pk.value, coins)
  {
    var longs := recv.dataset.longs;
    if |longs| == 0 then Success(Empty)
    else if recv.pk.None? then Failure(KeyNotSet)
    else if |longs| > e.slotCount then Failure(CapacityExceeded)
    else Success(Full(e.encrypt(e.encode(Pack(longs, e.slotCount)), recv.pk.value, coins)))
  }

  /** The slot vector the receiver reads out of a non-empty ciphertext. */
  function DecodeSlots(e: Engine, data: CipherData, sk: SecretKey): (slots: seq<UInt64>)
    ensures DecodesFullVectors(e) ==> |slots| == e.slotCount
    ensures forall pk: PublicKey, v: seq<UInt64>, coins: nat ::
              RoundTrip(e, sk, pk) && |v| == e.slotCount && data == e.encrypt(e.encode(v), pk, coins) ==> slots == v
  {
    e.decode(e.decrypt(data, sk))
  }

  /** Decrypts the sender's answer and keeps the string form of every element whose slot is
      zero, then records the engine's noise budget for the answer. An empty answer yields the
      empty result without decrypting. */
  function DecryptAndIntersect(e: Engine, c: Ciphertext, recv: Receiver): (r: Result<ComputationResult, Error>)
    requires |recv.dataset.longs| <= |recv.dataset.strs|
    ensures c.Empty? ==> r == Success(EmptyResult)
    ensures r == Failure(KeyNotSet) <==> c.Full? && recv.sk.None?
    ensures r == Failure(CapacityExceeded) <==>
              c.Full? && recv.sk.Some? && |DecodeSlots(e, c.data, recv.sk.value)| < |recv.dataset.longs|
    ensures r.Success? ==> |r.value.intersection| <= |recv.dataset.longs|
    ensures r.Success? && c.Full? ==>
              var slots := DecodeSlots(e, c.data, recv.sk.value);
              var n := |recv.dataset.longs|;
              && n <= |slots|
              && r.value.intersection == Gather(recv.dataset.strs, ZeroIndices(slots, n))
              && r.value.noiseBudget == IntToSizeT(e.noiseBudget(c.data, recv.sk.value))
  {
    if c.Empty? then Success(EmptyResult)
    else if recv.sk.None? then Failure(KeyNotSet)
    else
      var sk := recv.sk.value;
      var slots := DecodeSlots(e, c.data, sk);
      var n := |recv.dataset.longs|;
      if |slots| < n then Failure(CapacityExceeded)
      else
        var intersection := Intersect(slots, recv.dataset.strs, n);
        IntersectIsGatherOfZeroIndices(slots, recv.dataset.strs, n);
        Success(SetNoiseBudget(SetIntersection(EmptyResult, intersection),
                               IntToSizeT(e.noiseBudget(c.data, sk))))
  }

  /** With an empty dataset no string is ever selected, whatever the answer. An empty answer
      always gives noise 0; a non-empty one is still decrypted and the engine's noise reading
      is recorded, which may itself be 0 once the budget is exhausted; an unset secret key is
      still an error. */
  lemma EmptyDatasetAnyAnswer(e: Engine, c: Ciphertext, recv: Receiver)
    requires |recv.dataset.longs| == 0
    ensures DecryptAndIntersect(e, c, recv).Success? ==> DecryptAndIntersect(e, c, recv).value.intersection == []
    ensures c.Empty? ==> DecryptAndIntersect(e, c, recv) == Success(EmptyResult)
    ensures c.Full? && recv.sk.None? ==> DecryptAndIntersect(e, c, recv) == Failure(KeyNotSet)
    ensures c.Full? && recv.sk.Some? ==>
              DecryptAndIntersect(e, c, recv) ==
                Success(ComputationResult(IntToSizeT(e.noiseBudget(c.data, recv.sk.value)), []))
  {
  }

  /** Decrypting the encrypted dataset under a matching key recovers the packed vector: the
      dataset in its first slots, zeros after. */
  lemma EncryptedDatasetRoundTrips(e: Engine, recv: Receiver, sk: SecretKey, coins: nat)
    requires recv.pk.Some? && RoundTrip(e, sk, recv.pk.value)
    requires CryptDataset(e, recv, coins).Success? && CryptDataset(e, recv, coins).value.Full?
    ensures var slots := DecodeSlots(e, CryptDataset(e, recv, coins).value.data, sk);
            && |slots| == e.slotCount
            && Unpack(slots, |recv.dataset.longs|) == recv.dataset.longs
            && forall i :: |recv.dataset.longs| <= i < e.slotCount ==> slots[i] == 0
  {
    var v := Pack(recv.dataset.longs, e.slotCount);
    assert DecodeSlots(e, CryptDataset(e, recv, coins).value.data, sk) == e.decode(e.decrypt(e.encrypt(e.encode(v), recv.pk.value, coins), sk));
    UnpackPack(recv.dataset.longs, e.slotCount);
  }

  /** The sender's obligation: slot `i` of its answer decodes to zero exactly when the
      receiver's element `i` is in the sender's set. */
  ghost predicate HonestAnswer(e: Engine, c: Ciphertext, sk: SecretKey, longs: seq<UInt64>, senderSet: set<UInt64>)
  {
    && c.Full?
    && |longs| <= |DecodeSlots(e, c.data, sk)|
    && forall i :: 0 <= i < |longs| ==> (DecodeSlots(e, c.data, sk)[i] == 0 <==> longs[i] in senderSet)
  }

  /** Against an honest sender the result is the receiver's strings whose encodings the
      sender holds, and nothing else. */
  lemma {:induction false} HonestSenderYieldsSharedElements(
    e: Engine, c: Ciphertext, recv: Receiver, senderSet: set<UInt64>, s: string)
    requires |recv.dataset.longs| <= |recv.dataset.strs|
    requires recv.sk.Some? && HonestAnswer(e, c, recv.sk.value, recv.dataset.longs, senderSet)
    ensures DecryptAndIntersect(e, c, recv).Success?
    ensures s in DecryptAndIntersect(e, c, recv).value.intersection <==>
              exists i :: 0 <= i < |recv.dataset.longs| && recv.dataset.longs[i] in senderSet && recv.dataset.strs[i] == s
  {
    var slots := DecodeSlots(e, c.data, recv.sk.value);
    var n := |recv.dataset.longs|;
    IntersectIsGatherOfZeroIndices(slots, recv.dataset.strs, n);
    IntersectMembership(slots, recv.dataset.strs, n, s);
  }

  /** End to end with a sender that returns the receiver's own ciphertext: the intersection is
      the elements whose integer encoding is zero, in dataset order, and the noise budget is
      the engine's reading of that ciphertext. Padding slots never contribute. */
  lemma {:induction false} IdentitySenderSelectsZeroEncodings(e: Engine, recv: Receiver, sk: SecretKey, coins: nat)
    requires |recv.dataset.longs| <= |recv.dataset.strs|
    requires 0 < |recv.dataset.longs| <= e.slotCount
    requires recv.pk.Some? && recv.sk == Some(sk) && RoundTrip(e, sk, recv.pk.value)
    ensures CryptDataset(e, recv, coins).Success? && CryptDataset(e, recv, coins).value.Full?
    ensures var c := CryptDataset(e, recv, coins).value;
            DecryptAndIntersect(e, c, recv) ==
              Success(ComputationResult(
                IntToSizeT(e.noiseBudget(c.data, sk)),
                Gather(recv.dataset.strs, ZeroIndices(recv.dataset.longs, |recv.dataset.longs|))))
  {
    var longs := recv.dataset.longs;
    var n := |longs|;
    var c := CryptDataset(e, recv, coins).value;
    EncryptedDatasetRoundTrips(e, recv, sk, coins);
    var slots := DecodeSlots(e, c.data, sk);
    assert slots[..n] == longs[..n];
    ZeroIndicesIgnorePadding(slots, longs, n);
  }

  /** A whole session on a sound engine with an identity sender: keys from the generator,
      then the dataset, then encryption, then decryption. Every dataset that fits ends with
      exactly its zero-encoded elements; the empty dataset ends with the empty result. */
  lemma {:induction false} SessionSelectsZeroEncodings(e: Engine, seed: nat, coins: nat, dataset: Dataset)
    requires Sound(e)
    requires |dataset.longs| <= |dataset.strs| && |dataset.longs| <= e.slotCount
    ensures var recv := SetRecvDataset(SetupKeys(e, seed), dataset);
            var c := CryptDataset(e, recv, coins);
            && c.Success?
            && DecryptAndIntersect(e, c.value, recv).Success?
            && DecryptAndIntersect(e, c.value, recv).value.intersection
                 == Gather(dataset.strs, ZeroIndices(dataset.longs, |dataset.longs|))
            && (|dataset.longs| == 0 ==> DecryptAndIntersect(e, c.value, recv) == Success(EmptyResult))
  {
    var recv := SetRecvDataset(SetupKeys(e, seed), dataset);
    if |dataset.longs| > 0 {
      IdentitySenderSelectsZeroEncodings(e, recv, e.keyGen(seed).sk, coins);
    }
  }

  /** A dataset one element larger than the slot capacity is refused, not truncated. */
  lemma OversizedDatasetIsRefused(e: Engine, recv: Receiver, coins: nat)
    requires recv.pk.Some? && |recv.dataset.longs| == e.slotCount + 1
    ensures CryptDataset(e, recv, coins) == Failure(CapacityExceeded)
  {
  }

  /** The recorded noise budget is what the engine reported whenever that reading is
      non-negative, as SEAL's query always is. */
  lemma NoiseBudgetRecorded(e: Engine, c: Ciphertext, recv: Receiver)
    requires |recv.dataset.longs| <= |recv.dataset.strs|
    requires c.Full? && recv.sk.Some?
    requires |recv.dataset.longs| <= |DecodeSlots(e, c.data, recv.sk.value)|
    requires 0 <= e.noiseBudget(c.data, recv.sk.value)
    ensures DecryptAndIntersect(e, c, recv).Success?
    ensures DecryptAndIntersect(e, c, recv).value.noiseBudget == e.noiseBudget(c.data, recv.sk.value)
  {
  }
}
