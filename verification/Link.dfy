/**
 The transport interface as the board sees it, over a bus of arbitrary instruments. Every
 call's result comes from an oracle, so that what is proved holds for every adapter and
 every failure. A successful command or data call has delivered all its bytes; a failed one
 has delivered an arbitrary prefix. Interface clear, REN and soft reset calls act on the
 wire as a whole or not at all.
 */
module Link {
  import opened Bytes
  import opened Bus

  datatype Outcome = Outcome(rc: Rc, amount: nat, data: seq<byte>, end: bool, lines: nat)
  {
    /** How many of `n` bytes got through. */
    function Reach(n: nat): nat {
      if rc.Ok? then n else Min(amount, n)
    }
  }

  datatype Wire = Wire(board: Node, instruments: seq<Node>, ren: bool)
  {
    predicate Valid() {
      && board.addr.Valid() && board.addr.sad.None?
      && forall i :: 0 <= i < |instruments| ==> instruments[i].addr.Valid() && instruments[i].Settled(ren)
    }

    function Each(f: Node -> Node): (s: seq<Node>)
      ensures |s| == |instruments|
      ensures forall i :: 0 <= i < |s| ==> s[i] == f(instruments[i])
    {
      seq(|instruments|, i requires 0 <= i < |instruments| => f(instruments[i]))
    }

    function Deliver(cmds: seq<byte>): Wire {
      Wire(board.HearAll(ren, cmds), Each((n: Node) => n.HearAll(ren, cmds)), ren)
    }

    /** Data bytes reach every addressed listener, provided the board is the one talking. */
    function Send(t: seq<BusByte>): Wire {
      if !board.tads then this
      else this.(instruments := Each((n: Node) => if n.lads then n.(inbox := n.inbox + t) else n))
    }

    function InterfaceClear(): Wire {
      Wire(Idle(board), Each(Idle), ren)
    }

    function RemoteEnable(on: bool): Wire {
      Wire(board, Each((n: Node) => if on then n else n.(rl := LOCS)), on)
    }

    /** The bring-up starts with a chip reset: the board loses its roles and drops REN. */
    function BoardReset(): Wire {
      RemoteEnable(false).(board := Idle(board))
    }
  }

  function Idle(n: Node): Node {
    n.(tpas := false, tads := false, lpas := false, lads := false, spms := false)
  }

  /** How a read may end: the EOS character, the flags about it, and the timeout. */
  datatype Terms = Terms(eosChar: byte, eosFlags: byte, us: u32)

  datatype Call =
    | Commands(cmds: seq<byte>, rc: Rc)
    | Data(buf: seq<byte>, eoi: bool, us: u32, rc: Rc, written: nat)
    | Read(count: nat, terms: Terms, rc: Rc, data: seq<byte>, end: bool)
    | SoftReset(rc: Rc)
    | ClearInterfaces(rc: Rc)
    | TakeControl(rc: Rc)
    | ReleaseAtn(rc: Rc)
    | ReadLines(rc: Rc, lines: nat)
    | RemoteEnable(on: bool, rc: Rc)

  lemma {:induction false} HearKeepsSettled(n: Node, ren: bool, cmds: seq<byte>)
    requires n.Settled(ren)
    ensures n.HearAll(ren, cmds).Settled(ren)
    decreases |cmds|
  {
    if cmds != [] {
      HearKeepsSettled(n.Hear(ren, cmds[0]), ren, cmds[1..]);
    }
  }

  lemma DeliverValid(w: Wire, cmds: seq<byte>)
    requires w.Valid()
    ensures w.Deliver(cmds).Valid()
  {
    forall i | 0 <= i < |w.instruments| ensures w.Deliver(cmds).instruments[i].Settled(w.ren) {
      HearKeepsSettled(w.instruments[i], w.ren, cmds);
    }
  }

  class Transport {
    const outcome: nat -> Outcome
    const renOutcome: nat -> Rc
    var turn: nat
    var wire: Wire
    ghost var calls: seq<Call>

    constructor (outcome: nat -> Outcome, renOutcome: nat -> Rc, wire: Wire)
      requires wire.Valid()
      ensures this.outcome == outcome && this.renOutcome == renOutcome && this.wire == wire && calls == []
    {
      this.outcome, this.renOutcome, this.wire := outcome, renOutcome, wire;
      turn, calls := 0, [];
    }

    method Next() returns (o: Outcome)
      modifies this`turn
      ensures o == outcome(old(turn))
    {
      o := outcome(turn);
      turn := turn + 1;
    }

    method SendCommandBytes(cmds: seq<byte>) returns (rc: Rc, ghost reach: nat)
      requires wire.Valid()
      modifies this
      ensures reach <= |cmds| && (rc.Ok? ==> reach == |cmds|)
      ensures wire == old(wire).Deliver(cmds[..reach]) && wire.Valid()
      ensures calls == old(calls) + [Commands(cmds, rc)]
    {
      var o := Next();
      rc, reach := o.rc, o.Reach(|cmds|);
      DeliverValid(wire, cmds[..o.Reach(|cmds|)]);
      wire := wire.Deliver(cmds[..o.Reach(|cmds|)]);
      calls := calls + [Commands(cmds, rc)];
    }

    method WriteData(buf: seq<byte>, eoi: bool, us: u32) returns (rc: Rc, written: nat, ghost reach: nat)
      requires wire.Valid()
      modifies this
      ensures reach <= |buf| && (rc.Ok? ==> reach == |buf| == written)
      ensures wire == old(wire).Send(Tag(buf, eoi)[..reach]) && wire.Valid()
      ensures calls == old(calls) + [Data(buf, eoi, us, rc, written)]
    {
      var o := Next();
      rc, reach := o.rc, o.Reach(|buf|);
      written := if rc.Ok? then |buf| else o.amount;
      wire := wire.Send(Tag(buf, eoi)[..o.Reach(|buf|)]);
      calls := calls + [Data(buf, eoi, us, rc, written)];
    }

    method ReadData(count: nat, terms: Terms) returns (rc: Rc, data: seq<byte>, end: bool)
      modifies this
      ensures |data| <= count && wire == old(wire)
      ensures calls == old(calls) + [Read(count, terms, rc, data, end)]
    {
      var o := Next();
      rc, data, end := o.rc, o.data[..Min(|o.data|, count)], o.end;
      calls := calls + [Read(count, terms, rc, data, end)];
    }

    method PulseInterfaceClear() returns (rc: Rc)
      requires wire.Valid()
      modifies this
      ensures wire == (if rc.Ok? then old(wire).InterfaceClear() else old(wire)) && wire.Valid()
      ensures calls == old(calls) + [ClearInterfaces(rc)]
    {
      var o := Next();
      rc := o.rc;
      wire := if rc.Ok? then wire.InterfaceClear() else wire;
      calls := calls + [ClearInterfaces(rc)];
    }

    // Taking control, releasing ATN and reading the bus lines move no bytes.

    method TakeControl() returns (rc: Rc)
      modifies this
      ensures wire == old(wire) && calls == old(calls) + [Call.TakeControl(rc)]
    {
      var o := Next();
      rc := o.rc;
      calls := calls + [Call.TakeControl(rc)];
    }

    method ReleaseAtn() returns (rc: Rc)
      modifies this
      ensures wire == old(wire) && calls == old(calls) + [Call.ReleaseAtn(rc)]
    {
      var o := Next();
      rc := o.rc;
      calls := calls + [Call.ReleaseAtn(rc)];
    }

    method ReadBusLines() returns (rc: Rc, lines: nat)
      modifies this
      ensures wire == old(wire) && calls == old(calls) + [ReadLines(rc, lines)]
    {
      var o := Next();
      rc, lines := o.rc, o.lines;
      calls := calls + [ReadLines(rc, lines)];
    }

    method SetRemoteEnable(on: bool) returns (rc: Rc)
      requires wire.Valid()
      modifies this
      ensures wire == (if rc.Ok? then old(wire).RemoteEnable(on) else old(wire)) && wire.Valid()
      ensures (forall k :: renOutcome(k).Ok?) ==> rc.Ok?
      ensures calls == old(calls) + [RemoteEnable(on, rc)]
    {
      rc := renOutcome(turn);
      turn := turn + 1;
      wire := if rc.Ok? then wire.RemoteEnable(on) else wire;
      calls := calls + [RemoteEnable(on, rc)];
    }

    method SoftReset() returns (rc: Rc)
      requires wire.Valid()
      modifies this
      ensures wire == (if rc.Ok? then old(wire).BoardReset() else old(wire)) && wire.Valid()
      ensures calls == old(calls) + [Call.SoftReset(rc)]
    {
      var o := Next();
      rc := o.rc;
      wire := if rc.Ok? then wire.BoardReset() else wire;
      calls := calls + [Call.SoftReset(rc)];
    }
  }
}
