/** Proving that a record, purged or not, belonged to a sealed range. */
module Inclusion {
  import opened Bytes
  import opened Evidence
  import opened Ledger
  import opened Merkle
  import opened Sealing
  import opened Sorting
  import opened Retention
  import opened Audit

  datatype InclusionError = NotInSealedSet

  predicate LeafAtMost(a: SegmentLeaf, b: SegmentLeaf) { a.seqNo <= b.seqNo }

  function SortLeaves(leaves: seq<SegmentLeaf>): (r: seq<SegmentLeaf>)
    ensures multiset(r) == multiset(leaves) && |r| == |leaves|
  {
    Sort(LeafAtMost, leaves)
  }

  function IndexOf(leaves: seq<SegmentLeaf>, seqNo: int): (r: Option<nat>)
    ensures r.Some? ==> r.value < |leaves| && leaves[r.value].seqNo == seqNo
    ensures r.Some? ==> forall i :: 0 <= i < r.value ==> leaves[i].seqNo != seqNo
    ensures r.None? ==> forall i :: 0 <= i < |leaves| ==> leaves[i].seqNo != seqNo
  {
    if leaves == [] then None
    else if leaves[0].seqNo == seqNo then Some(0)
    else match IndexOf(leaves[1..], seqNo) case None => None case Some(i) => Some(i + 1)
  }

  method FindLeaf(leaves: seq<SegmentLeaf>, seqNo: int) returns (index: int)
    ensures index == -1 <==> IndexOf(leaves, seqNo).None?
    ensures index != -1 ==> IndexOf(leaves, seqNo) == Some(index)
  {
    for i := 0 to |leaves|
      invariant IndexOf(leaves, seqNo) ==
                  (match IndexOf(leaves[i..], seqNo) case None => None case Some(k) => Some(k + i))
    {
      assert leaves[i..][0] == leaves[i] && leaves[i..][1..] == leaves[i + 1..];
      if leaves[i].seqNo == seqNo { return i; }
    }
    return -1;
  }

  /** The proof for the record with this number among the given leaves, and the code it proves. */
  method ProveInclusion(h: Hash, leaves: seq<SegmentLeaf>, seqNo: int)
    returns (r: Result<(MerkleProof, Bytes), InclusionError>)
    requires IsHash(h)
    ensures var ordered := SortLeaves(leaves);
            match IndexOf(ordered, seqNo)
            case None => r == Err(NotInSealedSet)
            case Some(i) =>
              && r.Ok? && r.value.1 == ordered[i].mac && Proves(h, LeafMacs(ordered), i, r.value.0.path)
              && r.value.0.Valid() && (r.value.0.index, r.value.0.treeSize) == (i, |leaves|)
  {
    hide SortLeaves, Proves, InclusionPath, IndexOf;
    var ordered := SortLeaves(leaves);
    var index := FindLeaf(ordered, seqNo);
    if index < 0 { return Err(NotInSealedSet); }
    var proof := BuildInclusionProof(h, LeafMacs(ordered), index);
    return Ok((proof.value, ordered[index].mac));
  }

  // ---------------------------------------------------------------------------------------
  // The sealed leaves, in whatever order they were kept
  // ---------------------------------------------------------------------------------------

  /** The leaves an anchor was computed over. */
  function SealedLeaves(a: WormAnchor, hist: seq<StoredRecord>): (r: seq<SegmentLeaf>)
    requires a.Valid() && a.lastSeq < |hist|
    ensures |r| == a.treeSize && forall i :: 0 <= i < |r| ==>
              r[i] == SegmentLeaf(a.firstSeq + i, hist[a.firstSeq + i].mac)
  {
    seq(a.treeSize, i requires 0 <= i < a.treeSize => SegmentLeaf(a.firstSeq + i, hist[a.firstSeq + i].mac))
  }

  lemma IndexOfSealed(a: WormAnchor, hist: seq<StoredRecord>, i: nat)
    requires a.Valid() && a.lastSeq < |hist| && a.Covers(i)
    ensures IndexOf(SealedLeaves(a, hist), i) == Some(i - a.firstSeq)
  {
    var sealed := SealedLeaves(a, hist);
    assert sealed[i - a.firstSeq].seqNo == i;
    var k := IndexOf(sealed, i);
    assert k.Some? && sealed[k.value].seqNo == a.firstSeq + k.value;
  }

  lemma SortsBack(a: WormAnchor, hist: seq<StoredRecord>, leaves: seq<SegmentLeaf>)
    requires a.Valid() && a.lastSeq < |hist| && multiset(leaves) == multiset(SealedLeaves(a, hist))
    ensures SortLeaves(leaves) == SealedLeaves(a, hist)
  {
    hide Sort;
    SortSorts(LeafAtMost, leaves);
    SortedIsUnique(LeafAtMost, SortLeaves(leaves), SealedLeaves(a, hist));
  }

  /**
   * What the sealer needs to prove a purged record later is its seal's leaves, in any order: the
   * proof it builds from them is accepted by the anchor's root and spells the record's position.
   */
  lemma SealedLeavesProve(mac: Mac, h: Hash, a: WormAnchor, hist: seq<StoredRecord>, leaves: seq<SegmentLeaf>, i: nat)
    requires IsHash(h) && Attests(mac, h, a, hist) && a.Covers(i) && multiset(leaves) == multiset(SealedLeaves(a, hist))
    ensures var ordered := SortLeaves(leaves);
            && IndexOf(ordered, i) == Some(i - a.firstSeq) && ordered[i - a.firstSeq].mac == hist[i].mac
            && MerkleRoot(h, LeafMacs(ordered)) == a.merkleRoot
  {
    hide SortLeaves, IndexOf, MerkleRoot, Authentic;
    SortsBack(a, hist, leaves);
    IndexOfSealed(a, hist, i);
    assert LeafMacs(SealedLeaves(a, hist)) == SealedMacs(a, hist);
  }
}
