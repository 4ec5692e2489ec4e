/** The client's `ibwrt`, and a message split over several of them. */
module Client {
  import opened Bytes
  import opened Board
  import Bus
  import opened Link

  const MAX_INLINE_WRITE := 4080

  lemma ReceivedTwice(u: Wire, v: Wire, w: Wire, a: Bus.Address, s: seq<BusByte>, t: seq<BusByte>)
    requires Received(u, v, a, s) && Received(v, w, a, t) && SameAddresses(u, v)
    ensures Received(u, w, a, s + t)
  {
  }

  /** The client always asks for EOI; the descriptor's EOT setting decides. */
  method IbWrt(b: GpibBoard, h: int, buf: seq<byte>)
    returns (sta: set<Flag>, ibcnt: nat, err: Iberr, ghost sent: nat, ghost delta: seq<Call>)
    requires b.Valid()
    modifies b.link, b`ibsta, b`recoveryInProgress
    ensures b.Valid() && sent <= |buf| && (CMPL in sta ==> sent == |buf| == ibcnt)
    ensures b.link.calls == old(b.link.calls) + delta
    ensures |buf| > MAX_INLINE_WRITE ==> sta == {ERR} && err == EARG && sent == 0 && delta == []
    ensures |buf| <= MAX_INLINE_WRITE && b.IsOpen(h) && b.online ==>
      && Transfer(delta, b.PlanFor(b.descriptors[h], false))
      && WriteReport(delta, buf, b.descriptors[h].eot, b.descriptors[h].timeoutUs, sta, ibcnt, err)
    ensures b.Reaches(h) ==>
      && Received(old(b.link.wire), b.link.wire, b.descriptors[h].Target(), Tag(buf, b.descriptors[h].eot)[..sent])
      && SameAddresses(old(b.link.wire), b.link.wire)
  {
    if |buf| > MAX_INLINE_WRITE {
      return {ERR}, 0, EARG, 0, [];
    }
    sta, ibcnt, err, sent, delta := b.Write(h, buf, true);
  }

  ghost predicate SameAddresses(w: Wire, v: Wire) {
    && |v.instruments| == |w.instruments|
    && forall i :: 0 <= i < |w.instruments| ==> v.instruments[i].addr == w.instruments[i].addr
  }

  predicate LastFailed(calls: seq<Call>) {
    calls != [] && !calls[|calls| - 1].rc.Ok?
  }

  /** `ibeot(0)` on every piece but the last, `ibeot(1)` on that: if every call succeeds, the
      listener has received the ideal single message, however it was cut; and a call fails
      only if the board is offline, a piece is too long, or the transport failed. */
  method SendSplit(b: GpibBoard, h: int, parts: seq<seq<byte>>) returns (ok: bool)
    requires b.Valid() && b.Reaches(h)
    requires parts != [] && parts[|parts| - 1] != []
    modifies b.link, b.descriptors, b`ibsta, b`recoveryInProgress
    ensures b.Valid() && b.Reaches(h) && b.descriptors[h].Target() == old(b.descriptors[h].Target())
    ensures || ok || !b.online || (exists i :: 0 <= i < |parts| && |parts[i]| > MAX_INLINE_WRITE)
            || LastFailed(b.link.calls)
    ensures ok ==> Received(old(b.link.wire), b.link.wire, b.descriptors[h].Target(), Tag(Flatten(parts), true))
  {
    ghost var start := b.link.wire;
    var last := |parts| - 1;
    for i := 0 to |parts|
      invariant b.Valid() && b.Reaches(h) && b.descriptors[h].Target() == old(b.descriptors[h].Target())
      invariant SameAddresses(start, b.link.wire)
      invariant Received(start, b.link.wire, b.descriptors[h].Target(), Tag(Flatten(parts[..i]), i > last))
    {
      ghost var before := b.link.wire;
      var _, _ := b.Configure(h, IbcEOT, if i == last then 1 else 0);
      assert b.Reaches(h);
      var sta, _, _, sent, _ := IbWrt(b, h, parts[i]);
      if CMPL !in sta {
        return false;
      }
      assert Tag(parts[i], i == last)[..sent] == Tag(parts[i], i == last);
      ReceivedTwice(start, before, b.link.wire, b.descriptors[h].Target(),
                    Tag(Flatten(parts[..i]), false), Tag(parts[i], i == last));
      TagSplit(Flatten(parts[..i]), parts[i], i == last);
      assert parts[..i + 1][..i] == parts[..i];
    }
    assert parts[..|parts|] == parts;
    ok := true;
  }
}
