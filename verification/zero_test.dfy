/** Zero-test extraction: after decryption, dataset element `i` is shared exactly when slot
    `i` decodes to 0. Only the first `n` slots (one per dataset element) are examined. */
module ZeroTest {
  import opened FixedWidth

  /** The indices below `n` whose slot is zero, in increasing order: the reference
      definition of which elements are shared. */
  function ZeroIndices(slots: seq<UInt64>, n: nat): (idx: seq<nat>)
    requires n <= |slots|
    ensures |idx| <= n
    ensures forall k :: 0 <= k < |idx| ==> idx[k] < n && slots[idx[k]] == 0
    ensures forall i :: 0 <= i < n && slots[i] == 0 ==> i in idx
    ensures forall k, l :: 0 <= k < l < |idx| ==> idx[k] < idx[l]
  {
    if n == 0 then []
    else
      var prefix := ZeroIndices(slots, n - 1);
      if slots[n - 1] == 0 then prefix + [n - 1] else prefix
  }

  /** The elements of `strs` at the given indices, in the given order. */
  function Gather(strs: seq<string>, idx: seq<nat>): (r: seq<string>)
    requires forall k :: 0 <= k < |idx| ==> idx[k] < |strs|
    ensures |r| == |idx|
    ensures forall k :: 0 <= k < |idx| ==> r[k] == strs[idx[k]]
  {
    seq(|idx|, k requires 0 <= k < |idx| => strs[idx[k]])
  }

  /** The scan of the receiver: walk `i` from 0 to `n`, appending `strs[i]` whenever slot
      `i` is zero. */
  function Intersect(slots: seq<UInt64>, strs: seq<string>, n: nat): (r: seq<string>)
    requires n <= |slots| && n <= |strs|
    ensures |r| <= n
    ensures forall s :: s in r ==> s in strs[..n]
  {
    if n == 0 then []
    else
      var prefix := Intersect(slots, strs, n - 1);
      assert strs[..n - 1] <= strs[..n];
      if slots[n - 1] == 0 then prefix + [strs[n - 1]] else prefix
  }

  /** The scan picks out exactly the elements at the zero slots, in dataset order. */
  lemma {:induction false} IntersectIsGatherOfZeroIndices(slots: seq<UInt64>, strs: seq<string>, n: nat)
    requires n <= |slots| && n <= |strs|
    ensures Intersect(slots, strs, n) == Gather(strs, ZeroIndices(slots, n))
  {
    if n > 0 {
      IntersectIsGatherOfZeroIndices(slots, strs, n - 1);
      var prefix := ZeroIndices(slots, n - 1);
      if slots[n - 1] == 0 {
        assert Gather(strs, prefix + [n - 1]) == Gather(strs, prefix) + [strs[n - 1]];
      }
    }
  }

  /** Zero-test correctness, both directions: a string is in the intersection exactly when
      some examined index holds it and has a zero slot. */
  lemma IntersectMembership(slots: seq<UInt64>, strs: seq<string>, n: nat, s: string)
    requires n <= |slots| && n <= |strs|
    ensures s in Intersect(slots, strs, n) <==> exists i :: 0 <= i < n && slots[i] == 0 && strs[i] == s
  {
    IntersectIsGatherOfZeroIndices(slots, strs, n);
    var idx := ZeroIndices(slots, n);
    var r := Intersect(slots, strs, n);
    if s in r {
      var k :| 0 <= k < |r| && r[k] == s;
      assert slots[idx[k]] == 0 && strs[idx[k]] == s;
    }
    if exists i :: 0 <= i < n && slots[i] == 0 && strs[i] == s {
      var i :| 0 <= i < n && slots[i] == 0 && strs[i] == s;
      assert i in idx;
      var k :| 0 <= k < |idx| && idx[k] == i;
      assert r[k] == s;
    }
  }

  /** Index-level zero test: index `i` is selected exactly when it is examined and its
      slot is zero. */
  lemma ZeroIndicesExact(slots: seq<UInt64>, n: nat, i: nat)
    requires n <= |slots|
    ensures i in ZeroIndices(slots, n) <==> i < n && slots[i] == 0
  {
  }

  /** Slots at index `n` and beyond are never examined: the selection depends only on the
      first `n` slots. */
  lemma {:induction false} ZeroIndicesIgnorePadding(a: seq<UInt64>, b: seq<UInt64>, n: nat)
    requires n <= |a| && n <= |b|
    requires a[..n] == b[..n]
    ensures ZeroIndices(a, n) == ZeroIndices(b, n)
  {
    if n > 0 {
      assert a[..n - 1] == a[..n][..n - 1] && b[..n - 1] == b[..n][..n - 1];
      assert a[n - 1] == a[..n][n - 1] && b[n - 1] == b[..n][n - 1];
      ZeroIndicesIgnorePadding(a, b, n - 1);
    }
  }

  /** The receiver's loop, as written: one pass over the dataset indices, appending the
      string form whenever the decoded slot is zero. */
  method ScanZeroSlots(slots: seq<UInt64>, strs: seq<string>, n: nat) returns (intersection: seq<string>)
    requires n <= |slots| && n <= |strs|
    ensures intersection == Gather(strs, ZeroIndices(slots, n))
  {
    intersection := [];
    var index := 0;
    while index < n
      invariant index <= n
      invariant intersection == Intersect(slots, strs, index)
    {
      if slots[index] == 0 {
        intersection := intersection + [strs[index]];
      }
      index := index + 1;
    }
    IntersectIsGatherOfZeroIndices(slots, strs, n);
  }

  /** Three strings with slots 0, 5, 0 and zero padding: the intersection is
      "000", "010". */
  lemma ThreeElementExample()
    ensures Intersect([0, 5, 0, 0], ["000", "001", "010"], 3) == ["000", "010"]
  {
  }
}
