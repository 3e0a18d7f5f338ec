/** The two data holders passed between the receiver's steps: the `Receiver` session
    (keys, dataset, element width) and the `ComputationResult` it ends with. Setters are
    value updates returning the new holder; getters read one field. */
module Holders {
  import opened Wrappers
  import opened FixedWidth
  import opened HeEngine

  /** The receiver's dataset in both forms: the bit-strings as loaded, and their integer
      encodings. Element `i` of one corresponds to element `i` of the other; the loader
      guarantees that alignment, and this type does not enforce it. */
  datatype Dataset = Dataset(strs: seq<string>, longs: seq<UInt64>)

  const EmptyDataset: Dataset := Dataset([], [])

  /** A receiver session. `bitsSize` is the element bit-width, not the element count. */
  datatype Receiver = Receiver(
    sk: Option<SecretKey>,
    pk: Option<PublicKey>,
    relin: Option<RelinKeys>,
    dataset: Dataset,
    bitsSize: Option<Long>)

  /** A default-constructed receiver: empty key objects, empty dataset, width never set. */
  const FreshReceiver: Receiver := Receiver(None, None, None, EmptyDataset, None)

  /** The result of one PSI run: the engine's remaining noise budget and the strings found
      to be shared, in receiver order. */
  datatype ComputationResult = ComputationResult(noiseBudget: SizeT, intersection: seq<string>)

  /** The result a run starts from, and the one a degenerate run returns. */
  const EmptyResult: ComputationResult := ComputationResult(0, [])

  // ----- Receiver getters -----

  // Each getter returns what the matching setter stores: storing back the value read
  // leaves the receiver as it was.

  function GetRecvSk(recv: Receiver): (sk: Option<SecretKey>)
    ensures sk.None? <==> recv.sk.None?
    ensures sk.Some? ==> SetRecvSk(recv, sk.value) == recv
  {
    recv.sk
  }

  function GetRecvPk(recv: Receiver): (pk: Option<PublicKey>)
    ensures pk.None? <==> recv.pk.None?
    ensures pk.Some? ==> SetRecvPk(recv, pk.value) == recv
  {
    recv.pk
  }

  function GetRelinKeys(recv: Receiver): (relin: Option<RelinKeys>)
    ensures relin.None? <==> recv.relin.None?
    ensures relin.Some? ==> SetRelinKeys(recv, relin.value) == recv
  {
    recv.relin
  }

  /** Storing back the dataset read keeps the stored dataset as it was, and keeps the whole
      receiver as it was whenever the width invariant holds. */
  function GetRecvDataset(recv: Receiver): (dataset: Dataset)
    ensures SetRecvDataset(recv, dataset).dataset == recv.dataset
    ensures WidthInvariant(recv) ==> SetRecvDataset(recv, dataset) == recv
  {
    recv.dataset
  }

  /** The element bit-width, not the element count. */
  function GetDatasetSize(recv: Receiver): (size: Option<Long>)
    ensures size.None? <==> recv.bitsSize.None?
    ensures size.Some? ==> SetBitsSize(recv, size.value) == recv
  {
    recv.bitsSize
  }

  /** The three key fields are the same in both sessions. */
  ghost predicate SameKeys(a: Receiver, b: Receiver)
  {
    a.sk == b.sk && a.pk == b.pk && a.relin == b.relin
  }

  /** The width the receiver records for a dataset whose first element is `s`. */
  function WidthOf(s: string): Long
  {
    NarrowToLong(|s|)
  }

  /** The session invariant: a non-empty dataset's first element fixes the recorded width. */
  ghost predicate WidthInvariant(recv: Receiver)
  {
    |recv.dataset.strs| > 0 ==> recv.bitsSize == Some(WidthOf(recv.dataset.strs[0]))
  }

  // ----- Receiver setters -----

  function SetBitsSize(recv: Receiver, size: Long): (r: Receiver)
    ensures r.bitsSize == Some(size)
    ensures SameKeys(r, recv) && r.dataset == recv.dataset
  {
    recv.(bitsSize := Some(size))
  }

  /** Stores the dataset exactly; a non-empty one also sets the width to its first
      element's length, an empty one leaves the width as it was. */
  function SetRecvDataset(recv: Receiver, dataset: Dataset): (r: Receiver)
    ensures r.dataset == dataset
    ensures SameKeys(r, recv)
    ensures |dataset.strs| > 0 ==> r.bitsSize == Some(WidthOf(dataset.strs[0]))
    ensures |dataset.strs| == 0 ==> r.bitsSize == recv.bitsSize
    ensures WidthInvariant(r)
  {
    var stored := recv.(dataset := dataset);
    if |dataset.strs| > 0 then SetBitsSize(stored, WidthOf(dataset.strs[0])) else stored
  }

  function SetRecvSk(recv: Receiver, sk: SecretKey): (r: Receiver)
    ensures r.sk == Some(sk)
    ensures r.pk == recv.pk && r.relin == recv.relin
    ensures r.dataset == recv.dataset && r.bitsSize == recv.bitsSize
  {
    recv.(sk := Some(sk))
  }

  function SetRecvPk(recv: Receiver, pk: PublicKey): (r: Receiver)
    ensures r.pk == Some(pk)
    ensures r.sk == recv.sk && r.relin == recv.relin
    ensures r.dataset == recv.dataset && r.bitsSize == recv.bitsSize
  {
    recv.(pk := Some(pk))
  }

  function SetRelinKeys(recv: Receiver, relin: RelinKeys): (r: Receiver)
    ensures r.relin == Some(relin)
    ensures r.sk == recv.sk && r.pk == recv.pk
    ensures r.dataset == recv.dataset && r.bitsSize == recv.bitsSize
  {
    recv.(relin := Some(relin))
  }

  /** For a dataset of ordinary length the recorded width is exactly the first element's
      length: `getDatasetSize` reports a bit-width, whatever the number of elements. */
  lemma DatasetSizeIsFirstWidth(recv: Receiver, dataset: Dataset)
    requires |dataset.strs| > 0 && |dataset.strs[0]| < TWO_63
    ensures GetDatasetSize(SetRecvDataset(recv, dataset)) == Some(|dataset.strs[0]|)
  {
  }

  /** Width and count differ: three 2-bit strings record width 2, not 3. */
  lemma DatasetSizeIsNotCount(recv: Receiver)
    ensures var r := SetRecvDataset(recv, Dataset(["00", "01", "11"], [0, 1, 3]));
      GetDatasetSize(r) == Some(2) && |GetRecvDataset(r).strs| == 3
  {
    assert |"00"| == 2;
  }

  /** The key setters keep the width invariant. */
  lemma KeySettersKeepWidthInvariant(recv: Receiver, sk: SecretKey, pk: PublicKey, relin: RelinKeys)
    requires WidthInvariant(recv)
    ensures WidthInvariant(SetRecvSk(recv, sk))
    ensures WidthInvariant(SetRecvPk(recv, pk))
    ensures WidthInvariant(SetRelinKeys(recv, relin))
  {
  }

  /** Get after set: each receiver getter returns what its setter stored. */
  lemma ReceiverGetAfterSet(recv: Receiver, sk: SecretKey, pk: PublicKey, relin: RelinKeys, dataset: Dataset, size: Long)
    ensures GetRecvDataset(SetRecvDataset(recv, dataset)) == dataset
    ensures GetRecvSk(SetRecvSk(recv, sk)) == Some(sk)
    ensures GetRecvPk(SetRecvPk(recv, pk)) == Some(pk)
    ensures GetRelinKeys(SetRelinKeys(recv, relin)) == Some(relin)
    ensures GetDatasetSize(SetBitsSize(recv, size)) == Some(size)
  {
  }

  // ----- ComputationResult -----

  function GetNoiseBudget(res: ComputationResult): (noiseBudget: SizeT)
    ensures SetNoiseBudget(res, noiseBudget) == res
  {
    res.noiseBudget
  }

  function GetIntersection(res: ComputationResult): (intersection: seq<string>)
    ensures SetIntersection(res, intersection) == res
  {
    res.intersection
  }

  function SetNoiseBudget(res: ComputationResult, noiseBudget: SizeT): (r: ComputationResult)
    ensures r.noiseBudget == noiseBudget
    ensures r.intersection == res.intersection
  {
    res.(noiseBudget := noiseBudget)
  }

  function SetIntersection(res: ComputationResult, intersection: seq<string>): (r: ComputationResult)
    ensures r.intersection == intersection
    ensures r.noiseBudget == res.noiseBudget
  {
    res.(intersection := intersection)
  }

  /** Get after set: each result getter returns what its setter stored, and the other
      getter is unaffected. */
  lemma ResultGetAfterSet(res: ComputationResult, noiseBudget: SizeT, intersection: seq<string>)
    ensures GetNoiseBudget(SetNoiseBudget(res, noiseBudget)) == noiseBudget
    ensures GetIntersection(SetNoiseBudget(res, noiseBudget)) == GetIntersection(res)
    ensures GetIntersection(SetIntersection(res, intersection)) == intersection
    ensures GetNoiseBudget(SetIntersection(res, intersection)) == GetNoiseBudget(res)
  {
  }

  /** A result is determined by what its two getters return, so populating it through both
      setters, in either order, gives the same value. */
  lemma SettersCommute(res: ComputationResult, noiseBudget: SizeT, intersection: seq<string>)
    ensures SetNoiseBudget(SetIntersection(res, intersection), noiseBudget)
         == SetIntersection(SetNoiseBudget(res, noiseBudget), intersection)
         == ComputationResult(noiseBudget, intersection)
  {
  }
}
