/**
 Concrete runs of the register path in which the record of a holdoff and the chip part, or EOI
 is left over. The exact conditions are in the contracts of the methods called here.
 */
module RegisterRuns {
  import opened Bytes
  import opened Usb
  import opened Trace
  import opened Causes
  import opened Kusb

  const TAKEN := Reply(Success, 1, [])
  const REFUSED := Reply(Failed, 0, [])

  function Shown(v: byte): Reply {
    Reply(Success, 1, [v])
  }

  /** Standby at once, nothing latched, and one byte, with END on the bus or without. */
  function OneByte(end: bool): seq<Reply> {
    [TAKEN, TAKEN, Shown(0x40), Shown(0x00), Shown(if end then 0x11 else 0x01), Shown(0x2A)]
  }

  /** Receive the byte, which leaves a holdoff on the record, and in the chip if END came with it. */
  method ReceiveOne(end: bool, rest: seq<Reply>) returns (t: Transport)
    ensures fresh(t) && fresh(t.usb) && t.Valid() && t.rfdHoldoffPending && t.C().held == end
    ensures t.C().clean && t.C().honest
    ensures forall k :: 0 <= k < |rest| ==> t.usb.Upcoming(k) == rest[k]
  {
    var usb := new Device(OneByte(end) + rest, _ => 0, _ => end);
    t := new Transport(usb);
    assert Transport.StandsBy(usb) && Shows(usb.Upcoming(4), ISR1_DI, true) && Yields(usb.Upcoming(5));
    var buf := new byte[1];
    var _, got, _, _ := t.ReadDataViaRegisters(buf, 1, 0, 0, 3_000_000);
    assert got == 1 && usb.next == 6;
  }

  /** The finish-handshake is refused and everything else goes well: the record is gone, the
      chip still holds off, and a command byte goes out to it all the same. */
  method RefusedFinish() returns (t: Transport)
    ensures t.Valid() && !t.rfdHoldoffPending && t.C().held && !t.C().clean
  {
    var rest := [REFUSED, TAKEN, Shown(0x00), TAKEN, TAKEN];
    t := ReceiveOne(true, rest);
    assert t.usb.Upcoming(0) == rest[0] && t.usb.Upcoming(1) == rest[1] && t.usb.Upcoming(2) == rest[2];
    assert t.usb.Upcoming(3) == rest[3] && t.usb.Upcoming(4) == rest[4];
    var _, _ := t.SendCommandBytesViaRegisters([0x3F]);
  }

  /** Ask for the byte that comes with END, and lose the reply that brings it. */
  method LoseOne(rest: seq<Reply>) returns (t: Transport)
    ensures fresh(t) && fresh(t.usb) && t.Valid() && !t.rfdHoldoffPending && t.C().held && t.C().clean
    ensures forall k :: 0 <= k < |rest| ==> t.usb.Upcoming(k) == rest[k]
  {
    var script := [TAKEN, TAKEN, Shown(0x40), Shown(0x00), Shown(0x11), REFUSED];
    var usb := new Device(script + rest, _ => 0, _ => true);
    t := new Transport(usb);
    assert Transport.StandsBy(usb) && Shows(usb.Upcoming(4), ISR1_DI, true) && !Yields(usb.Upcoming(5));
    var buf := new byte[1];
    var _, got, _, _ := t.ReadDataViaRegisters(buf, 1, 0, 0, 3_000_000);
    assert got == 0 && usb.next == 6;
  }

  /** The byte comes with END, but the reply that brings it is lost: nothing is recorded, no
      finish-handshake is sent, and a command byte goes out to a chip that holds off. */
  method LostByte() returns (t: Transport)
    ensures t.Valid() && !t.rfdHoldoffPending && t.C().held && !t.C().clean
  {
    var rest := [TAKEN, Shown(0x00), TAKEN, TAKEN];
    t := LoseOne(rest);
    assert t.usb.Upcoming(0) == rest[0] && t.usb.Upcoming(1) == rest[1];
    assert t.usb.Upcoming(2) == rest[2] && t.usb.Upcoming(3) == rest[3];
    var _, _ := t.SendCommandBytesViaRegisters([0x3F]);
  }

  /** The read ends on its count with a byte that came without END. The holdoff is recorded all
      the same, and the next call finishes a handshake that the chip does not owe. */
  method CountedRead() returns (t: Transport)
    ensures t.Valid() && !t.C().honest
  {
    var rest := [TAKEN];
    t := ReceiveOne(false, rest);
    assert t.usb.Upcoming(0) == rest[0];
    var _, _ := t.SendCommandBytesViaRegisters([0x3F]);
  }

  /** The bring-up breaks off after its chip reset: the chip is free, the record stands, and
      the next finish-handshake meets a chip that owes none. */
  method BrokenBringUp() returns (t: Transport)
    ensures t.Valid() && !t.C().held && !t.C().honest
  {
    var rest := [TAKEN, Reply(Success, 8, []), REFUSED, TAKEN];
    t := ReceiveOne(true, rest);
    assert t.usb.Upcoming(1) == rest[1] && t.usb.Upcoming(2) == rest[2] && t.usb.Upcoming(3) == rest[3];
    var rc, done := t.RunBringUpSequence();
    assert done == 1 && t.usb.Upcoming(0) == rest[3];
    var _, _ := t.SendCommandBytesViaRegisters([0x3F]);
  }

  /** EOI is armed and its byte refused: the next message, sent without EOI, starts with it. */
  method LeftoverEoi() returns (t: Transport)
    ensures t.Valid() && t.C().sent == [BusByte(0x41, true)] && t.C().sent != Tag([0x41], false)
  {
    var script := [TAKEN, TAKEN, Shown(0x40), TAKEN, REFUSED, TAKEN, TAKEN, Shown(0x40), TAKEN];
    var usb := new Device(script, _ => 0, _ => false);
    t := new Transport(usb);
    assert Transport.StandsBy(usb) && Transport.RefusesByte(usb, 3);
    var _, _, none := t.WriteDataViaRegisters([0x40], true, 3_000_000);
    assert usb.next == 5 && Transport.StandsBy(usb) && Accepts(usb.Upcoming(3), 1);
    assert none == 0 && t.C().eoiLatched && t.C().sent == [];
    var _, _, some := t.WriteDataViaRegisters([0x41], false, 3_000_000);
    assert some == 1 && Tag([0x41], false)[0] == BusByte(0x41, false);
  }
}
