/**
 * MAC chains: walking one, and what a walk proves about a list that someone may have rewritten.
 */
module Chain {
  import opened Bytes
  import opened Evidence

  /** A stored record as the walk sees it; `payload` is recomputed from the stored fields. */
  datatype Link = Link(seqNo: int, prev: Bytes, mac: Bytes, keyId: Id, payload: Payload)

  datatype Status = Intact | Broken | SealedPurged | Unverifiable

  datatype Verdict = Verdict(status: Status, checked: nat, brokenSeq: Option<int>)

  function Shift(v: Verdict, n: nat): Verdict { v.(checked := v.checked + n) }

  /** The verdict on one link, or `None` if it passes. */
  function LinkFault(mac: Mac, signer: Signer, l: Link, seqNo: int, prev: Bytes): Option<Verdict> {
    if l.seqNo != seqNo || l.prev != prev then Some(Verdict(Broken, 0, Some(l.seqNo)))
    else if !signer.CanVerify(l.keyId) then Some(Verdict(Unverifiable, 0, None))
    else if l.mac != mac(l.keyId, l.payload) then Some(Verdict(Broken, 0, Some(l.seqNo)))
    else None
  }

  function Walk(mac: Mac, signer: Signer, links: seq<Link>, seqNo: int, prev: Bytes): Verdict {
    if links == [] then Verdict(Intact, 0, None)
    else
      match LinkFault(mac, signer, links[0], seqNo, prev)
      case Some(v) => v
      case None => Shift(Walk(mac, signer, links[1..], seqNo + 1, links[0].mac), 1)
  }

  /** The shape of an honest chain that starts at `seqNo` and links to `prev`. */
  ghost predicate Linked(mac: Mac, links: seq<Link>, seqNo: int, prev: Bytes) {
    forall i {:trigger links[i]} :: 0 <= i < |links| ==>
      LinkedAt(mac, links[i], seqNo + i, if i == 0 then prev else links[i - 1].mac)
  }

  ghost predicate AllVerifiable(signer: Signer, links: seq<Link>) {
    forall i :: 0 <= i < |links| ==> signer.CanVerify(links[i].keyId)
  }

  ghost predicate LinkedAt(mac: Mac, l: Link, seqNo: int, prev: Bytes) {
    l.seqNo == seqNo && l.prev == prev && l.mac == mac(l.keyId, l.payload)
  }

  lemma LinkedRow(mac: Mac, links: seq<Link>, seqNo: int, prev: Bytes, i: nat)
    requires Linked(mac, links, seqNo, prev) && i < |links|
    ensures LinkedAt(mac, links[i], seqNo + i, if i == 0 then prev else links[i - 1].mac)
  {
  }

  lemma LinkedTail(mac: Mac, links: seq<Link>, seqNo: int, prev: Bytes)
    requires links != []
    ensures Linked(mac, links, seqNo, prev) <==>
            LinkedAt(mac, links[0], seqNo, prev) && Linked(mac, links[1..], seqNo + 1, links[0].mac)
  {
    var tail := links[1..];
    assert forall i :: 0 <= i < |tail| ==> tail[i] == links[i + 1];
    if LinkedAt(mac, links[0], seqNo, prev) && Linked(mac, tail, seqNo + 1, links[0].mac) {
      forall i | 0 <= i < |links| ensures LinkedAt(mac, links[i], seqNo + i, if i == 0 then prev
                                                   else links[i - 1].mac) {
        if i > 0 { assert LinkedAt(mac, tail[i - 1], seqNo + i, if i == 1 then links[0].mac else tail[i - 2].mac); }
      }
    }
    if Linked(mac, links, seqNo, prev) {
      forall i | 0 <= i < |tail| ensures LinkedAt(mac, tail[i], seqNo + 1 + i, if i == 0 then links[0].mac
                                                  else tail[i - 1].mac) {
        assert LinkedAt(mac, links[i + 1], seqNo + i + 1, links[i].mac);
      }
    }
  }

  lemma LinkedSnoc(mac: Mac, links: seq<Link>, l: Link, seqNo: int, prev: Bytes)
    requires Linked(mac, links, seqNo, prev)
    requires LinkedAt(mac, l, seqNo + |links|, if links == [] then prev else links[|links| - 1].mac)
    ensures Linked(mac, links + [l], seqNo, prev)
  {
    var all := links + [l];
    forall i | 0 <= i < |all| ensures LinkedAt(mac, all[i], seqNo + i, if i == 0 then prev else all[i - 1].mac) {
      if i < |links| {
        assert all[i] == links[i] && LinkedAt(mac, links[i], seqNo + i, if i == 0 then prev else links[i - 1].mac);
      }
    }
  }

  /** With every key at hand, a walk is clean exactly on honest chains, and then covers them. */
  lemma {:induction false} WalkIntact(mac: Mac, signer: Signer, links: seq<Link>, seqNo: int, prev: Bytes)
    requires AllVerifiable(signer, links)
    ensures Walk(mac, signer, links, seqNo, prev).status == Intact <==> Linked(mac, links, seqNo, prev)
    ensures Linked(mac, links, seqNo, prev) ==> Walk(mac, signer, links, seqNo, prev) == Verdict(Intact, |links|, None)
    ensures Walk(mac, signer, links, seqNo, prev).status in {Intact, Broken}
  {
    if links != [] {
      LinkedTail(mac, links, seqNo, prev);
      WalkIntact(mac, signer, links[1..], seqNo + 1, links[0].mac);
    }
  }

  // ---------------------------------------------------------------------------------------
  // Tampering
  // ---------------------------------------------------------------------------------------

  /** Every pair of key and payload that was ever signed. */
  type SigningLog = set<(Id, Payload)>

  /** Unforgeability, for one list: a code that authenticates was made by signing. */
  ghost predicate Unforged(mac: Mac, log: SigningLog, links: seq<Link>) {
    forall i :: 0 <= i < |links| && links[i].mac == mac(links[i].keyId, links[i].payload) ==>
      (links[i].keyId, links[i].payload) in log
  }

  /** What was signed at a position from `seqNo` on is the genuine record of that position. */
  ghost predicate LogPins(log: SigningLog, links: seq<Link>, genuine: seq<Link>, seqNo: int) {
    forall i :: 0 <= i < |links| && (links[i].keyId, links[i].payload) in log && links[i].seqNo >= seqNo ==>
      && links[i].seqNo - seqNo < |genuine|
      && links[i].keyId == genuine[links[i].seqNo - seqNo].keyId
      && links[i].payload == genuine[links[i].seqNo - seqNo].payload
  }

  /** The length of the longest common prefix. */
  function CommonPrefix<T(==)>(a: seq<T>, b: seq<T>): nat {
    if a == [] || b == [] || a[0] != b[0] then 0 else 1 + CommonPrefix(a[1..], b[1..])
  }

  lemma {:induction false} CommonPrefixIsLongest<T>(a: seq<T>, b: seq<T>)
    ensures CommonPrefix(a, b) <= |a| && CommonPrefix(a, b) <= |b|
    ensures a[..CommonPrefix(a, b)] == b[..CommonPrefix(a, b)]
    ensures forall n :: 0 <= n <= |a| && n <= |b| && a[..n] == b[..n] ==> n <= CommonPrefix(a, b)
  {
    if a != [] && b != [] && a[0] == b[0] {
      CommonPrefixIsLongest(a[1..], b[1..]);
      var k := CommonPrefix(a[1..], b[1..]);
      assert a[..k + 1] == [a[0]] + a[1..][..k] && b[..k + 1] == [b[0]] + b[1..][..k];
      forall n | 0 <= n <= |a| && n <= |b| && a[..n] == b[..n] ensures n <= k + 1 {
        if n > 0 {
          assert a[1..][..n - 1] == a[..n][1..] && b[1..][..n - 1] == b[..n][1..];
        }
      }
    }
  }

  lemma LogPinsTail(log: SigningLog, links: seq<Link>, genuine: seq<Link>, seqNo: int)
    requires links != [] && genuine != [] && LogPins(log, links, genuine, seqNo)
    ensures LogPins(log, links[1..], genuine[1..], seqNo + 1)
  {
    forall i | 0 <= i < |links[1..]| && (links[1..][i].keyId, links[1..][i].payload) in log
           && links[1..][i].seqNo >= seqNo + 1
      ensures var l := links[1..][i];
              && l.seqNo - (seqNo + 1) < |genuine[1..]|
              && l.keyId == genuine[1..][l.seqNo - (seqNo + 1)].keyId
              && l.payload == genuine[1..][l.seqNo - (seqNo + 1)].payload
    {
      assert links[1..][i] == links[i + 1];
    }
  }

  lemma UnforgedTail(mac: Mac, log: SigningLog, links: seq<Link>)
    requires links != [] && Unforged(mac, log, links)
    ensures Unforged(mac, log, links[1..])
  {
    forall i | 0 <= i < |links[1..]| && links[1..][i].mac == mac(links[1..][i].keyId, links[1..][i].payload)
      ensures (links[1..][i].keyId, links[1..][i].payload) in log
    {
      assert links[1..][i] == links[i + 1];
    }
  }

  lemma PrefixCons<T>(a: seq<T>, b: seq<T>)
    requires a != [] && b != [] && a[0] == b[0] && a[1..] <= b[1..]
    ensures a <= b
  {
    assert a == [a[0]] + a[1..] && b == [b[0]] + b[1..];
  }

  /** Up to here the links have their numbers, their predecessors' codes and their own, under keys at hand. */
  ghost predicate Passes(mac: Mac, signer: Signer, links: seq<Link>, seqNo: int, prev: Bytes, n: nat) {
    n <= |links| && Linked(mac, links[..n], seqNo, prev) && AllVerifiable(signer, links[..n])
  }

  function PrevAt(links: seq<Link>, prev: Bytes, n: nat): Bytes
    requires n <= |links|
  {
    if n == 0 then prev else links[n - 1].mac
  }

  /**
   * What a verdict says about any list of links: how many pass, and what is wrong with the next one.
   * A broken verdict names the number stored there.
   */
  ghost predicate Explains(mac: Mac, signer: Signer, links: seq<Link>, seqNo: int, prev: Bytes, v: Verdict) {
    && v.status != SealedPurged && Passes(mac, signer, links, seqNo, prev, v.checked)
    && (v.status == Intact <==> v.checked == |links|)
    && (v.status != Broken ==> v.brokenSeq == None)
    && (v.checked < |links| ==>
        var l, last := links[v.checked], PrevAt(links, prev, v.checked);
        var fits := l.seqNo == seqNo + v.checked && l.prev == last;
        && (v.status == Unverifiable <==> fits && !signer.CanVerify(l.keyId))
        && (v.status == Broken ==> v.brokenSeq == Some(l.seqNo) && (fits ==> l.mac != mac(l.keyId, l.payload))))
  }

  lemma PassesCons(mac: Mac, signer: Signer, links: seq<Link>, seqNo: int, prev: Bytes, n: nat)
    requires links != [] && LinkFault(mac, signer, links[0], seqNo, prev).None?
    requires Passes(mac, signer, links[1..], seqNo + 1, links[0].mac, n)
    ensures Passes(mac, signer, links, seqNo, prev, n + 1)
  {
    hide Linked;
    var first := links[..n + 1];
    assert first[1..] == links[1..][..n];
    LinkedTail(mac, first, seqNo, prev);
    forall i | 0 <= i < |first| ensures signer.CanVerify(first[i].keyId) {
      if i > 0 { assert first[i] == links[1..][..n][i - 1]; }
    }
  }

  lemma {:induction false} WalkExactly(mac: Mac, signer: Signer, links: seq<Link>, seqNo: int, prev: Bytes)
    ensures Explains(mac, signer, links, seqNo, prev, Walk(mac, signer, links, seqNo, prev))
  {
    if links != [] {
      if LinkFault(mac, signer, links[0], seqNo, prev).None? {
        var v := Walk(mac, signer, links[1..], seqNo + 1, links[0].mac);
        WalkExactly(mac, signer, links[1..], seqNo + 1, links[0].mac);
        PassesCons(mac, signer, links, seqNo, prev, v.checked);
        hide Passes;
        if v.checked < |links[1..]| { assert links[1..][v.checked] == links[v.checked + 1]; }
      }
    }
  }

  /**
   * Tamper evidence. Whatever list replaces the genuine one, a walk that is not broken and not
   * unverifiable saw a prefix of the genuine chain; a broken one stopped exactly where the list
   * first departs from it; an unverifiable one saw only genuine records before it stopped.
   */
  lemma {:induction false} WalkTampered(mac: Mac, signer: Signer, log: SigningLog,
                                        list: seq<Link>, genuine: seq<Link>, seqNo: int, prev: Bytes)
    requires Linked(mac, genuine, seqNo, prev)
    requires Unforged(mac, log, list) && LogPins(log, list, genuine, seqNo)
    ensures var v := Walk(mac, signer, list, seqNo, prev);
            && v.checked <= CommonPrefix(list, genuine)
            && v.checked <= |list|
            && (v.status == Intact ==> v.checked == |list| && list <= genuine)
            && (v.status == Broken ==> v.checked == CommonPrefix(list, genuine))
            && v.status != SealedPurged
    decreases |list|
  {
    if list != [] {
      if LinkFault(mac, signer, list[0], seqNo, prev).None? {
        TamperedHead(mac, signer, log, list, genuine, seqNo, prev);
        LinkedTail(mac, genuine, seqNo, prev);
        LogPinsTail(log, list, genuine, seqNo);
        UnforgedTail(mac, log, list);
        WalkTampered(mac, signer, log, list[1..], genuine[1..], seqNo + 1, list[0].mac);
        if list[1..] <= genuine[1..] { PrefixCons(list, genuine); }
      } else if genuine != [] && list[0] == genuine[0] {
        assert genuine[0].seqNo == seqNo;
      }
    }
  }

  /** A link that passes is the genuine one. */
  lemma TamperedHead(mac: Mac, signer: Signer, log: SigningLog, list: seq<Link>, genuine: seq<Link>, seqNo: int,
                     prev: Bytes)
    requires list != [] && LinkFault(mac, signer, list[0], seqNo, prev).None?
    requires Linked(mac, genuine, seqNo, prev)
    requires Unforged(mac, log, list) && LogPins(log, list, genuine, seqNo)
    ensures genuine != [] && list[0] == genuine[0]
  {
    assert (list[0].keyId, list[0].payload) in log;
    assert genuine[0].seqNo == seqNo && genuine[0].prev == prev;
  }
}
