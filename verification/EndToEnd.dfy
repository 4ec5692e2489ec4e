/**
 The interface assumption made good for the KUSB-488B: the calls that the board makes on its
 transport, carried out by the firmware pipeline.
 */
module EndToEnd {
  import opened Bytes
  import opened Link
  import opened Board
  import Bus
  import Client
  import Kusb
  import NiWire

  /** What the firmware has put on the bus since its stream was `before`. */
  function Since<T(==)>(before: seq<T>, now: seq<T>): seq<T>
    requires before <= now
  {
    now[|before|..]
  }

  /** One data call of the board: a prefix of the tagged message goes out, all of it and
      rightly counted on success, so that the wire changes as `Link` says. */
  method WriteData(t: Kusb.Transport, ghost w: Wire, buf: seq<byte>, eoi: bool, timeoutUs: u32)
    returns (rc: Rc, written: nat, ghost reach: nat, ghost v: Wire)
    requires t.Valid() && |buf| <= 0xFFFF_FFFF
    modifies t.usb`next, t.usb`log, t.usb`ticks, t`rfdHoldoffPending
    ensures t.Valid() && old(t.E()).data <= t.E().data
    ensures reach <= |buf| && (rc.Ok? ==> reach == |buf| == written)
    ensures Since(old(t.E()).data, t.E().data) == Tag(buf, eoi)[..reach] && t.E().cmds == old(t.E()).cmds
    ensures v == w.Send(Tag(buf, eoi)[..reach])
  {
    rc, written, reach := t.WriteDataViaFirmware(buf, eoi, timeoutUs);
    v := w.Send(Tag(buf, eoi)[..reach]);
  }

  /** One command call of the board: a prefix goes out, all of it on success. */
  method SendCommandBytes(t: Kusb.Transport, ghost w: Wire, cmds: seq<byte>)
    returns (rc: Rc, ghost reach: nat, ghost v: Wire)
    requires t.Valid() && |cmds| <= 0xFFFF_FFFF
    modifies t.usb`next, t.usb`log, t.usb`ticks, t`rfdHoldoffPending
    ensures t.Valid() && old(t.E()).cmds <= t.E().cmds
    ensures reach <= |cmds| && (rc.Ok? ==> reach == |cmds|)
    ensures Since(old(t.E()).cmds, t.E().cmds) == cmds[..reach] && t.E().data == old(t.E()).data
    ensures v == w.Deliver(cmds[..reach])
  {
    rc, reach := t.SendCommandBytesViaFirmware(cmds);
    v := w.Deliver(cmds[..reach]);
  }

  /** The timeout that a client chooses is the one the NI adapter gets, and the one the KUSB-488B
      gets from a millisecond up. */
  lemma TimeoutSurvives(code: int)
    requires 0 <= code <= 17
    ensures code == 0 <==> NiWire.TimeoutCode(TimeoutMicros(code)) == 0xF0
    ensures code > 0 ==> NiWire.Micros(NiWire.TimeoutCode(TimeoutMicros(code))) == TimeoutMicros(code)
    ensures code >= 5 ==> Kusb.MsFromUsec(TimeoutMicros(code)) * 1000 == TimeoutMicros(code)
  {
  }

  lemma SendKeeps(w: Wire, t: seq<BusByte>)
    requires w.Valid()
    ensures w.Send(t).Valid() && w.Send(t).board == w.board && Client.SameAddresses(w, w.Send(t))
  {
  }

  lemma WriteCallIsPassive(pad: nat, a: Bus.Address)
    ensures forall i :: 0 <= i < |Bus.WriteCall(pad, a)| ==> Bus.Passive(Bus.WriteCall(pad, a)[i])
  {
  }

  /** The target is called: on success it is the one listening and the board is the one
      talking, and nobody has received anything. */
  method CallTarget(t: Kusb.Transport, ghost w: Wire, pad: nat, a: Bus.Address)
    returns (ok: bool, ghost v: Wire)
    requires t.Valid() && w.Valid() && w.board.addr == Bus.Address(pad, None) && a.Encodable() && a.pad != pad
    modifies t.usb`next, t.usb`log, t.usb`ticks, t`rfdHoldoffPending
    ensures t.Valid() && t.E().data == old(t.E()).data
    ensures v.Valid() && v.board.addr == w.board.addr && Kept(w, v, a, 0)
    ensures ok ==> TalkingTo(v, a)
  {
    var call := Bus.WriteCall(pad, a);
    WriteCallIsPassive(pad, a);
    ghost var reach;
    var rc;
    rc, reach, v := SendCommandBytes(t, w, call);
    DeliverValid(w, call[..reach]);
    PassiveCallKeeps(w, a, call[..reach]);
    ok := rc.Ok?;
    if ok {
      assert call[..reach] == call;
      WriteCallOnWire(w, a);
    }
  }

  /** One piece: the target is called and the data follows. */
  method SendPiece(t: Kusb.Transport, ghost w: Wire, pad: nat, a: Bus.Address, buf: seq<byte>, eoi: bool)
    returns (ok: bool, ghost v: Wire)
    requires t.Valid() && |buf| <= Client.MAX_INLINE_WRITE
    requires w.Valid() && w.board.addr == Bus.Address(pad, None) && a.Encodable() && a.pad != pad
    modifies t.usb`next, t.usb`log, t.usb`ticks, t`rfdHoldoffPending
    ensures t.Valid() && v.Valid() && v.board.addr == w.board.addr && Client.SameAddresses(w, v)
    ensures old(t.E()).data <= t.E().data
    ensures ok ==> Received(w, v, a, Tag(buf, eoi)) && Since(old(t.E()).data, t.E().data) == Tag(buf, eoi)
  {
    ok, v := CallTarget(t, w, pad, a);
    if !ok {
      return;
    }
    ghost var addressed, reach := v, 0;
    var rc, written;
    rc, written, reach, v := WriteData(t, addressed, buf, eoi, 3_000_000);
    SendKeeps(addressed, Tag(buf, eoi)[..reach]);
    SentToTarget(w, addressed, a, Tag(buf, eoi)[..reach]);
    ok := rc.Ok?;
    if ok {
      assert Tag(buf, eoi)[..reach] == Tag(buf, eoi);
    }
  }

  lemma OnePieceMore(parts: seq<seq<byte>>, i: nat, start: seq<BusByte>, stream: seq<BusByte>, now: seq<BusByte>)
    requires i < |parts| && parts[|parts| - 1] != [] && start <= stream <= now
    requires Since(start, stream) == Tag(Flatten(parts[..i]), false)
    requires Since(stream, now) == Tag(parts[i], i == |parts| - 1)
    ensures Tag(Flatten(parts[..i]), false) + Tag(parts[i], i == |parts| - 1) ==
              Tag(Flatten(parts[..i + 1]), i == |parts| - 1)
    ensures start <= now && Since(start, now) == Tag(Flatten(parts[..i + 1]), i == |parts| - 1)
  {
    TagSplit(Flatten(parts[..i]), parts[i], i == |parts| - 1);
    assert parts[..i + 1][..i] == parts[..i];
    assert Since(start, now) == Since(start, stream) + Since(stream, now);
  }

  /** A message in pieces, all the way down: if every call on the adapter succeeds, the
      firmware has put the ideal single message on the bus, and the target and nobody else has
      received it, whatever the bus looked like before. */
  method SendSplit(t: Kusb.Transport, ghost w: Wire, pad: nat, a: Bus.Address, parts: seq<seq<byte>>)
    returns (ok: bool, ghost v: Wire)
    requires t.Valid() && parts != [] && parts[|parts| - 1] != []
    requires forall p :: p in parts ==> |p| <= Client.MAX_INLINE_WRITE
    requires w.Valid() && w.board.addr == Bus.Address(pad, None) && a.Encodable() && a.pad != pad
    modifies t.usb`next, t.usb`log, t.usb`ticks, t`rfdHoldoffPending
    ensures t.Valid() && old(t.E()).data <= t.E().data
    ensures ok ==>
      && Since(old(t.E()).data, t.E().data) == Tag(Flatten(parts), true)
      && Received(w, v, a, Tag(Flatten(parts), true))
  {
    var last := |parts| - 1;
    ghost var start := t.E().data;
    v := w;
    for i := 0 to |parts|
      invariant t.Valid() && v.Valid() && v.board.addr == w.board.addr && Client.SameAddresses(w, v)
      invariant start <= t.E().data && Since(start, t.E().data) == Tag(Flatten(parts[..i]), i > last)
      invariant Received(w, v, a, Tag(Flatten(parts[..i]), i > last))
    {
      ghost var before, stream := v, t.E().data;
      var sent;
      sent, v := SendPiece(t, before, pad, a, parts[i], i == last);
      if !sent {
        return false, v;
      }
      Client.ReceivedTwice(w, before, v, a, Tag(Flatten(parts[..i]), false), Tag(parts[i], i == last));
      OnePieceMore(parts, i, start, stream, t.E().data);
    }
    assert parts[..|parts|] == parts;
    ok := true;
  }
}
