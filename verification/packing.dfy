/** Slot-vector packing: the integer-encoded dataset is laid out in a zero-initialised vector
    of `slotCount` batch slots, element `i` in slot `i`. */
module Packing {
  import opened FixedWidth

  /** `slotCount` zero slots. */
  function Zeros(k: nat): (r: seq<UInt64>)
    ensures |r| == k
    ensures forall i :: 0 <= i < k ==> r[i] == 0
  {
    seq(k, _ => 0)
  }

  /** The packed slot vector for `longs`. Only defined when the dataset fits. */
  function Pack(longs: seq<UInt64>, slotCount: nat): (v: seq<UInt64>)
    requires |longs| <= slotCount
    ensures |v| == slotCount
    ensures forall i :: 0 <= i < |longs| ==> v[i] == longs[i]
    ensures forall i :: |longs| <= i < slotCount ==> v[i] == 0
  {
    longs + Zeros(slotCount - |longs|)
  }

  /** Reads back the first `n` slots, the ones that carry dataset elements. */
  function Unpack(v: seq<UInt64>, n: nat): seq<UInt64>
    requires n <= |v|
  {
    v[..n]
  }

  /** Unpacking a packed vector gives the dataset back, and every slot past it is padding. */
  lemma UnpackPack(longs: seq<UInt64>, slotCount: nat)
    requires |longs| <= slotCount
    ensures Unpack(Pack(longs, slotCount), |longs|) == longs
    ensures Pack(longs, slotCount)[|longs|..] == Zeros(slotCount - |longs|)
  {
    var v := Pack(longs, slotCount);
    assert v[..|longs|] == longs;
    assert v[|longs|..] == Zeros(slotCount - |longs|);
  }

  /** Packing is injective: two datasets of the same length with the same packed vector
      are the same dataset. */
  lemma PackInjective(a: seq<UInt64>, b: seq<UInt64>, slotCount: nat)
    requires |a| == |b| <= slotCount
    requires Pack(a, slotCount) == Pack(b, slotCount)
    ensures a == b
  {
    UnpackPack(a, slotCount);
    UnpackPack(b, slotCount);
  }

  /** The packing loop as written: a zero vector of `slotCount` slots, then one write per
      dataset element. */
  method PackSlots(longs: seq<UInt64>, slotCount: nat) returns (v: seq<UInt64>)
    requires |longs| <= slotCount
    ensures |v| == slotCount
    ensures v[..|longs|] == longs
    ensures forall i :: |longs| <= i < slotCount ==> v[i] == 0
  {
    v := Zeros(slotCount);
    var index := 0;
    while index < |longs|
      invariant index <= |longs|
      invariant |v| == slotCount
      invariant v[..index] == longs[..index]
      invariant forall i :: index <= i < slotCount ==> v[i] == 0
    {
      v := v[index := longs[index]];
      index := index + 1;
    }
  }
}
