/**
 The per-adapter state machine: the descriptor table, the addressing sequences, the data
 phases, recovery of a wedged bus, and the addressed and universal commands.
 */
module Board {
  import opened Bytes
  import opened Bus
  import opened Handles
  import opened Link

  datatype Flag = ERR | TIMO | END | CMPL | CIC | REM | LOK | RQS

  datatype Iberr = NoError | ECIC | ENOL | EARG | EABO | ENEB | ECAP | EBUS | ETAB

  datatype Key = IbcPAD | IbcSAD | IbcTMO | IbcEOT | IbcEOSchar | IbcEOSmode | IbcOther

  datatype Descriptor = Descriptor(handle: int, isBoard: bool, pad: byte, sad: int, eot: bool,
                                   eosChar: byte, eosFlags: byte, timeoutUs: u32)
  {
    /** The address that the command bytes built from this descriptor call. */
    function Target(): (a: Address)
      ensures a.Encodable()
    {
      ProbeTarget(pad, sad)
    }
  }

  // ----- What an operation may and may not do to the instruments -----

  /** No data arrives, nobody is triggered, and only instruments that answer to `a` may be
      device-cleared, at most `acts` times. */
  ghost predicate Kept(w: Wire, v: Wire, a: Address, acts: nat) {
    && v.board.addr == w.board.addr
    && |v.instruments| == |w.instruments|
    && forall i :: 0 <= i < |w.instruments| ==>
         var n, m := w.instruments[i], v.instruments[i];
         && m.addr == n.addr && m.inbox == n.inbox && m.triggers == n.triggers
         && n.clears <= m.clears <= n.clears + (if Answers(n.addr, a) then acts else 0)
  }

  /** The board is talking and the instruments listening are those that answer to `a`. */
  ghost predicate TalkingTo(w: Wire, a: Address) {
    && w.board.tads && !w.board.lads
    && forall i :: 0 <= i < |w.instruments| ==>
         && (w.instruments[i].lads <==> Answers(w.instruments[i].addr, a))
         && (w.instruments[i].tads ==> Answers(w.instruments[i].addr, w.board.addr))
  }

  ghost predicate ListeningTo(w: Wire, a: Address) {
    && w.board.lads && !w.board.tads
    && forall i :: 0 <= i < |w.instruments| ==>
         && (w.instruments[i].tads <==> Answers(w.instruments[i].addr, a))
         && (w.instruments[i].lads ==> Answers(w.instruments[i].addr, w.board.addr))
  }

  ghost predicate ActedAtMostOnce(w: Wire, v: Wire, a: Address) {
    && |v.instruments| == |w.instruments|
    && forall i :: 0 <= i < |w.instruments| ==>
         var n, m := w.instruments[i], v.instruments[i];
         && m.addr == n.addr && m.triggers == n.triggers
         && n.clears <= m.clears <= n.clears + (if Answers(n.addr, a) then 1 else 0)
  }

  /** Exactly the instruments that answer to `a` have received exactly `t`. */
  ghost predicate Received(w: Wire, v: Wire, a: Address, t: seq<BusByte>) {
    && |v.instruments| == |w.instruments|
    && forall i :: 0 <= i < |w.instruments| ==>
         v.instruments[i].inbox == w.instruments[i].inbox + (if Answers(w.instruments[i].addr, a) then t else [])
  }

  /** Instruments that do not answer to `a` are untouched; those that do, if the whole call
      got through, have acted on `op` exactly once. */
  ghost predicate Acted(w: Wire, v: Wire, a: Address, op: byte, whole: bool) {
    && |v.instruments| == |w.instruments|
    && forall i :: 0 <= i < |w.instruments| ==>
         var n, m := w.instruments[i], v.instruments[i];
         if !Answers(n.addr, a) then m.SameDevice(n)
         else whole ==>
           && m.clears == n.clears + (if op == SDC then 1 else 0)
           && m.triggers == n.triggers + (if op == GET then 1 else 0)
           && (op == GTL ==> m.rl == LOCS || m.rl == LWLS)
  }

  /** No two instruments respond to one address, and none responds to the board's. */
  ghost predicate Distinct(w: Wire) {
    && (forall i, j :: 0 <= i < |w.instruments| && 0 <= j < |w.instruments| && i != j ==>
          !Answers(w.instruments[i].addr, w.instruments[j].addr))
    && (forall i :: 0 <= i < |w.instruments| ==> w.instruments[i].addr.pad != w.board.addr.pad)
  }

  lemma WriteCallOnWire(w: Wire, a: Address)
    requires w.Valid() && a.Encodable() && a.pad != w.board.addr.pad
    ensures TalkingTo(w.Deliver(WriteCall(w.board.addr.pad, a)), a)
  {
    WriteCallRoles(w.board, w.ren, w.board.addr.pad, a);
    forall i | 0 <= i < |w.instruments|
      ensures var m := w.Deliver(WriteCall(w.board.addr.pad, a)).instruments[i];
              (m.lads <==> Answers(m.addr, a)) && (m.tads ==> Answers(m.addr, w.board.addr))
    {
      WriteCallRoles(w.instruments[i], w.ren, w.board.addr.pad, a);
    }
  }

  lemma ReadCallOnWire(w: Wire, a: Address)
    requires w.Valid() && a.Encodable() && a.pad != w.board.addr.pad
    ensures ListeningTo(w.Deliver(ReadCall(w.board.addr.pad, a)), a)
  {
    ReadCallRoles(w.board, w.ren, w.board.addr.pad, a);
    forall i | 0 <= i < |w.instruments|
      ensures var m := w.Deliver(ReadCall(w.board.addr.pad, a)).instruments[i];
              (m.tads <==> Answers(m.addr, a)) && (m.lads ==> Answers(m.addr, w.board.addr))
    {
      ReadCallRoles(w.instruments[i], w.ren, w.board.addr.pad, a);
    }
  }

  /** With distinct addresses: the board is the only talker and the target the only listener
      after the write call, and the other way round after the read call. */
  lemma OnlyTargetAddressed(w: Wire, t: nat)
    requires w.Valid() && Distinct(w) && t < |w.instruments|
    ensures var v := w.Deliver(WriteCall(w.board.addr.pad, w.instruments[t].addr));
            && v.board.tads && !v.board.lads
            && forall i :: 0 <= i < |w.instruments| ==> !v.instruments[i].tads && (v.instruments[i].lads <==> i == t)
    ensures var v := w.Deliver(ReadCall(w.board.addr.pad, w.instruments[t].addr));
            && v.board.lads && !v.board.tads
            && forall i :: 0 <= i < |w.instruments| ==> !v.instruments[i].lads && (v.instruments[i].tads <==> i == t)
  {
    WriteCallOnWire(w, w.instruments[t].addr);
    ReadCallOnWire(w, w.instruments[t].addr);
  }

  lemma PassiveCallKeeps(w: Wire, a: Address, cmds: seq<byte>)
    requires forall i :: 0 <= i < |cmds| ==> Passive(cmds[i])
    ensures Kept(w, w.Deliver(cmds), a, 0)
  {
    forall i | 0 <= i < |w.instruments|
      ensures var m := w.instruments[i].HearAll(w.ren, cmds);
              m.clears == w.instruments[i].clears && m.triggers == w.instruments[i].triggers
    {
      NoActionCommand(w.instruments[i], w.ren, cmds);
    }
  }

  lemma CommandCallActs(w: Wire, a: Address, op: byte, k: nat)
    requires w.Valid() && a.Encodable() && AddressedOp(op) && k <= |CommandCall(a, op)|
    ensures var whole := k == |CommandCall(a, op)|; Acted(w, w.Deliver(CommandCall(a, op)[..k]), a, op, whole)
  {
    var call := CommandCall(a, op);
    assert call[..|call|] == call;
    forall i | 0 <= i < |w.instruments|
      ensures var n := w.instruments[i]; var m := n.HearAll(w.ren, call[..k]);
              && (!Answers(n.addr, a) ==> m.SameDevice(n))
              && (Answers(n.addr, a) && k == |call| ==>
                    && m.clears == n.clears + (if op == SDC then 1 else 0)
                    && m.triggers == n.triggers + (if op == GET then 1 else 0)
                    && (op == GTL ==> m.rl == LOCS || m.rl == LWLS))
    {
      if Answers(w.instruments[i].addr, a) {
        TargetActs(w.instruments[i], w.ren, a, op);
      } else {
        OthersUntouched(w.instruments[i], w.ren, a, op, k);
      }
    }
  }

  lemma ClearCallKeeps(w: Wire, a: Address, k: nat)
    requires w.Valid() && a.Encodable() && k <= |CommandCall(a, SDC)|
    ensures Kept(w, w.Deliver(CommandCall(a, SDC)[..k]), a, 1)
  {
    CommandCallActs(w, a, SDC, k);
    if k < |CommandCall(a, SDC)| {
      PassiveCallKeeps(w, a, CommandCall(a, SDC)[..k]);
    }
  }

  /** Serial-poll mode is off and nobody is addressed to talk. */
  ghost predicate Quiet(w: Wire) {
    && !w.board.spms && !w.board.tads
    && forall i :: 0 <= i < |w.instruments| ==> !w.instruments[i].spms && !w.instruments[i].tads
  }

  /** The last thing sent is the teardown; `swept` says that it was delivered. */
  ghost predicate Teardown(calls: seq<Call>, swept: bool) {
    && calls != [] && calls[|calls| - 1] == Commands(POLL_END, calls[|calls| - 1].rc)
    && (swept <==> calls[|calls| - 1].rc.Ok?)
  }

  /** The address that an unopened probe calls. */
  function ProbeTarget(pad: byte, sad: int): (a: Address)
    ensures a.Encodable()
  {
    Address(pad % 0x20, if sad >= 0 then Some(sad % 0x20) else None)
  }

  const PROBE_TIMEOUT: u32 := 100_000

  /** A read of one byte, with no EOS character, within `us`. */
  predicate IsStatusRead(c: Call, us: u32) {
    c.Read? && c.count == 1 && c.terms == Terms(0, 0, us)
  }

  /** The calls of a probe: addressing, a read exactly if it succeeded, and the teardown. */
  ghost predicate ProbeCalls(before: seq<Call>, after: seq<Call>, call: seq<byte>) {
    && |after| >= |before| + 2 && before <= after
    && after[|before|] == Commands(call, after[|before|].rc)
    && if after[|before|].rc.Ok? then
         |after| == |before| + 3 && IsStatusRead(after[|before| + 1], PROBE_TIMEOUT)
       else |after| == |before| + 2
  }

  function ListenCall(a: Address): seq<byte> {
    [UNL, UNT, Mla(a.pad)] + Secondary(a)
  }

  /** From any state of the bus: exactly the instruments that answer to the address listen, and
      nobody talks, so that NDAC can only be theirs. */
  lemma ListenCallOnWire(w: Wire, a: Address)
    requires w.Valid() && a.Encodable()
    ensures var v := w.Deliver(ListenCall(a));
            && !v.board.tads && (v.board.lads <==> Answers(w.board.addr, a))
            && forall i :: 0 <= i < |w.instruments| ==>
                 && !v.instruments[i].tads && (v.instruments[i].lads <==> Answers(w.instruments[i].addr, a))
  {
    ListenCallRoles(w.board, w.ren, a);
    forall i | 0 <= i < |w.instruments|
      ensures var m := w.Deliver(ListenCall(a)).instruments[i];
              !m.tads && (m.lads <==> Answers(w.instruments[i].addr, a))
    {
      ListenCallRoles(w.instruments[i], w.ren, a);
    }
  }

  lemma ListenCallRoles(n: Node, ren: bool, a: Address)
    requires n.addr.Valid() && a.Encodable()
    ensures var m := n.HearAll(ren, ListenCall(a)); !m.tads && (m.lads <==> Answers(n.addr, a))
  {
    var tail := [Mla(a.pad)] + Secondary(a);
    assert ListenCall(a) == [UNL, UNT] + tail;
    HearTwo(n, ren, UNL, UNT, tail);
    HearUnaddress(n, ren);
    var n1 := n.Hear(ren, UNL).Hear(ren, UNT);
    assert tail[1..] == Secondary(a);
    HearMla(n1, ren, a.pad);
    var n2 := n1.Hear(ren, Mla(a.pad));
    assert Secondary(a) == Secondary(a) + [];
    HearSecondary(n2, ren, a, []);
    if a.sad.Some? {
      HearMsa(n2, ren, a.sad.value);
    }
  }

  /** The calls of a listener search, and what it concludes. */
  ghost predicate FoundListener(d: seq<Call>, a: Address, board: nat, present: bool) {
    && d != [] && d[0] == Commands(ListenCall(a), d[0].rc)
    && if !d[0].rc.Ok? then |d| == 1 && !present
       else
         && |d| >= 2 && d[1].ReleaseAtn?
         && if d[1].rc.Ok? then JudgedLines(d[2..], a, board, present) else |d| == 2 && !present
  }

  lemma LinesJudged(d: seq<Call>, more: seq<Call>, a: Address, board: nat, present: bool)
    requires |d| == 2 && d[0] == Commands(ListenCall(a), Ok) && d[1] == Call.ReleaseAtn(Ok)
    requires JudgedLines(more, a, board, present)
    ensures FoundListener(d + more, a, board, present)
  {
    assert (d + more)[2..] == more;
  }

  /** NDAC decides if any line is reported asserted, and a serial poll if none is. */
  ghost predicate JudgedLines(d: seq<Call>, a: Address, board: nat, present: bool) {
    && d != [] && d[0].ReadLines?
    && if d[0].rc.Ok? && d[0].lines / 0x100 % 0x100 != 0
       then |d| == 1 && present == (d[0].lines / 2 % 2 == 1 && d[0].lines / 0x200 % 2 == 1)
       else ProbeCalls([], d[1..], PollCall(board, a)) && present == PolledByte(d[1..]).Some?
  }

  lemma ProbeOnly(before: seq<Call>, after: seq<Call>, call: seq<byte>)
    requires ProbeCalls(before, after, call)
    ensures ProbeCalls([], after[|before|..], call) && PolledByte(after[|before|..]) == PolledByte(after)
  {
    var d := after[|before|..];
    assert d[0] == after[|before|] && d[1] == after[|before| + 1] && d[|d| - 2] == after[|after| - 2];
  }

  /** The calls of a serial poll: addressing, and exactly if it succeeded a read and the
      teardown. */
  ghost predicate PollCalls(before: seq<Call>, after: seq<Call>, call: seq<byte>, us: u32, addressed: bool) {
    && |after| == |before| + (if addressed then 3 else 1) && before <= after
    && after[|before|] == Commands(call, after[|before|].rc) && after[|before|].rc.Ok? == addressed
    && (addressed ==> IsStatusRead(after[|before| + 1], us))
  }

  /** The byte that was read just before the teardown, if there was one. */
  function PolledByte(calls: seq<Call>): Option<byte> {
    if |calls| < 2 then None
    else
      var c := calls[|calls| - 2];
      if c.Read? && c.count == 1 && c.rc.Ok? && |c.data| >= 1 then Some(c.data[0]) else None
  }

  /** On the whole bus: after a poll call the board listens and the talkers are those that
      answer, and those that were left talking on the same primary address. */
  lemma PollCallOnWire(w: Wire, a: Address)
    requires w.Valid() && a.Encodable() && a.pad != w.board.addr.pad
    ensures var v := w.Deliver(PollCall(w.board.addr.pad, a));
            && !v.board.tads && v.board.lads
            && forall i :: 0 <= i < |w.instruments| ==>
                 (v.instruments[i].tads <==> Answers(w.instruments[i].addr, a) || Stale(w.instruments[i], a))
  {
    PollCallRoles(w.board, w.ren, w.board.addr.pad, a);
    forall i | 0 <= i < |w.instruments|
      ensures w.instruments[i].HearAll(w.ren, PollCall(w.board.addr.pad, a)).tads <==>
              Answers(w.instruments[i].addr, a) || Stale(w.instruments[i], a)
    {
      PollCallRoles(w.instruments[i], w.ren, w.board.addr.pad, a);
    }
  }

  /** With distinct addresses, and polled at its own address, the instrument talks alone. */
  lemma PolledAlone(w: Wire, t: nat)
    requires w.Valid() && Distinct(w) && t < |w.instruments|
    ensures var v := w.Deliver(PollCall(w.board.addr.pad, w.instruments[t].addr));
            forall i :: 0 <= i < |w.instruments| ==> (v.instruments[i].tads <==> i == t)
  {
    var a := w.instruments[t].addr;
    PollCallOnWire(w, a);
    forall i | 0 <= i < |w.instruments| && i != t
      ensures !Answers(w.instruments[i].addr, a) && !Stale(w.instruments[i], a)
    {
      assert !Answers(w.instruments[t].addr, w.instruments[i].addr);
    }
  }

  /** Status, error and status byte are those of the read before the teardown. */
  predicate PollReport(calls: seq<Call>, sta: set<Flag>, stb: byte, err: Iberr) {
    && |calls| >= 2
    && if PolledByte(calls).Some? then
         && Some(stb) == PolledByte(calls) && err == NoError
         && sta == (if stb / 0x40 % 2 == 1 then {CMPL, RQS} else {CMPL})
       else
         var rc := calls[|calls| - 2].rc;
         sta == (if rc.TimedOut? then {ERR, TIMO} else {ERR}) && err == (if rc.TimedOut? then EABO else EBUS)
  }

  /** Serial-poll mode survives a failed addressing call exactly if all of it got through. */
  lemma PollModeAfterFailure(w: Wire, a: Address, k: nat)
    requires w.Valid() && k <= |PollCall(w.board.addr.pad, a)|
    requires !w.board.spms && forall i :: 0 <= i < |w.instruments| ==> !w.instruments[i].spms
    ensures var v := w.Deliver(PollCall(w.board.addr.pad, a)[..k]);
            !v.board.spms && (forall i :: 0 <= i < |v.instruments| ==> !v.instruments[i].spms)
            <==> k < |PollCall(w.board.addr.pad, a)|
  {
    InterruptedPollMode(w.board, w.ren, w.board.addr.pad, a, k);
    forall i | 0 <= i < |w.instruments|
      ensures w.instruments[i].HearAll(w.ren, PollCall(w.board.addr.pad, a)[..k]).spms ==>
                k == |PollCall(w.board.addr.pad, a)|
    {
      InterruptedPollMode(w.instruments[i], w.ren, w.board.addr.pad, a, k);
    }
  }

  /** What a failed addressing call leaves, exactly: the bus is quiet after the first `k` bytes
      if and only if that is not the whole call, serial-poll mode was off before, and the byte
      at which it broke off leaves nobody talking. */
  lemma QuietAfterFailure(w: Wire, a: Address, k: nat)
    requires w.Valid() && a.Encodable() && a.pad != w.board.addr.pad && k <= |PollCall(w.board.addr.pad, a)|
    ensures Quiet(w.Deliver(PollCall(w.board.addr.pad, a)[..k])) <==>
              && k < |PollCall(w.board.addr.pad, a)|
              && !w.board.spms && !TalksAfter(w.board, a, k)
              && forall i :: 0 <= i < |w.instruments| ==> !w.instruments[i].spms && !TalksAfter(w.instruments[i], a, k)
  {
    var board, call := w.board.addr.pad, PollCall(w.board.addr.pad, a)[..k];
    InterruptedPollMode(w.board, w.ren, board, a, k);
    InterruptedPollTalkers(w.board, w.ren, board, a, k);
    forall i | 0 <= i < |w.instruments|
      ensures var n := w.instruments[i];
              && (n.HearAll(w.ren, call).spms <==> n.spms || k == |PollCall(board, a)|)
              && (n.HearAll(w.ren, call).tads <==> TalksAfter(n, a, k))
    {
      InterruptedPollMode(w.instruments[i], w.ren, board, a, k);
      InterruptedPollTalkers(w.instruments[i], w.ren, board, a, k);
    }
  }

  lemma PollEndQuiets(w: Wire)
    requires w.Valid()
    ensures Quiet(w.Deliver(POLL_END))
  {
    PollEndClears(w.board, w.ren);
    forall i | 0 <= i < |w.instruments|
      ensures !w.instruments[i].HearAll(w.ren, POLL_END).spms && !w.instruments[i].HearAll(w.ren, POLL_END).tads
    {
      PollEndClears(w.instruments[i], w.ren);
    }
  }

  lemma ResetKeeps(w: Wire, a: Address)
    ensures Kept(w, w.BoardReset(), a, 0)
  {
  }

  lemma KeptTrans(u: Wire, v: Wire, w: Wire, a: Address, m: nat, n: nat)
    requires Kept(u, v, a, m) && Kept(v, w, a, n)
    ensures Kept(u, w, a, m + n)
  {
  }

  /** So far nothing was received, and nobody acted more than once. */
  lemma KeptIsNothing(u: Wire, w: Wire, a: Address, t: seq<BusByte>)
    requires Kept(u, w, a, 1)
    ensures Received(u, w, a, t[..0]) && ActedAtMostOnce(u, w, a)
  {
    forall i | 0 <= i < |u.instruments|
      ensures w.instruments[i].inbox == u.instruments[i].inbox + t[..0]
    {
    }
  }

  /** The instruments that answer to `a` have been device-cleared, exactly once if `once`. */
  ghost predicate Cleared(w: Wire, v: Wire, a: Address, once: bool) {
    && Kept(w, v, a, 1)
    && (once ==> forall i :: 0 <= i < |w.instruments| && Answers(w.instruments[i].addr, a) ==>
          v.instruments[i].clears == w.instruments[i].clears + 1)
  }

  lemma ClearedAfter(u: Wire, v: Wire, w: Wire, a: Address, once: bool)
    requires Kept(u, v, a, 0) && Cleared(v, w, a, once)
    ensures Cleared(u, w, a, once)
  {
    KeptTrans(u, v, w, a, 0, 1);
  }

  lemma SentToTarget(u: Wire, w: Wire, a: Address, t: seq<BusByte>)
    requires Kept(u, w, a, 1) && TalkingTo(w, a)
    ensures Received(u, w.Send(t), a, t) && TalkingTo(w.Send(t), a) && ActedAtMostOnce(u, w.Send(t), a)
  {
    assert forall n: Node :: n.inbox + [] == n.inbox;
  }

  // ----- What one data transfer may do on the link -----

  predicate IsAddressing(c: Call) {
    c.Commands? && |c.cmds| > 1 && c.cmds[1] == UNT
  }

  predicate IsDataPhase(c: Call) {
    c.Data? || c.Read?
  }

  /** What a transfer has to send: its addressing call, and for a recovery whether REN was
      requested and whom to clear. */
  datatype Plan = Plan(call: seq<byte>, ren: bool, target: Address)

  /** The calls of a recovery: the soft reset, and if it works interface clear, take control,
      REN if it was requested, and a device clear for the target if there is one. */
  predicate RecoveryCalls(r: seq<Call>, ren: bool, target: Option<Address>) {
    && r != [] && r[0].SoftReset?
    && if !r[0].rc.Ok? then |r| == 1
       else
         && |r| == 3 + (if ren then 1 else 0) + (if target.Some? then 1 else 0)
         && r[1].ClearInterfaces? && r[2].TakeControl?
         && (ren ==> r[3] == Call.RemoteEnable(true, r[3].rc))
         && (target.Some? ==> r[|r| - 1] == Commands(CommandCall(target.value, SDC), r[|r| - 1].rc))
  }

  /** The calls that open a transfer: the addressing call; exactly if that fails a recovery;
      and exactly if that works the addressing call once more. */
  predicate Opening(d: seq<Call>, p: Plan) {
    && d != [] && d[0] == Commands(p.call, d[0].rc)
    && if d[0].rc.Ok? then |d| == 1
       else
         && |d| >= 2 && d[1].SoftReset?
         && if d[1].rc.Ok? then
              && |d| > 2 && RecoveryCalls(d[1..|d| - 1], p.ren, Some(p.target))
              && d[|d| - 1] == Commands(p.call, d[|d| - 1].rc)
            else |d| == 2
  }

  /** The calls of a whole transfer: its opening, and the data call exactly if the target got
      addressed. */
  predicate Transfer(d: seq<Call>, p: Plan) {
    && d != []
    && if IsDataPhase(d[|d| - 1]) then Opening(d[..|d| - 1], p) && d[..|d| - 1][|d| - 2].rc.Ok?
       else Opening(d, p) && !d[|d| - 1].rc.Ok?
  }

  /** The result of the addressing call that counts. */
  function AddressingResult(d: seq<Call>): Rc
    requires d != []
  {
    if |d| == 2 then d[0].rc else d[|d| - 1].rc
  }

  ghost predicate OneReset(d: seq<Call>) {
    forall i, j :: 0 <= i < j < |d| ==> !(d[i].SoftReset? && d[j].SoftReset?)
  }

  ghost predicate TwoAddressings(d: seq<Call>) {
    forall i, j, k :: 0 <= i < j < k < |d| ==> !(IsAddressing(d[i]) && IsAddressing(d[j]) && IsAddressing(d[k]))
  }

  ghost predicate DataLast(d: seq<Call>) {
    forall i :: 0 <= i < |d| && IsDataPhase(d[i]) ==>
      i == |d| - 1 && i > 0 && IsAddressing(d[i - 1]) && d[i - 1].rc.Ok?
  }

  /** At most one soft reset, at most two addressing attempts, and at most one data phase,
      which comes last and directly after an addressing call that succeeded. */
  ghost predicate Bounded(d: seq<Call>) {
    OneReset(d) && TwoAddressings(d) && DataLast(d)
  }

  lemma OpeningKinds(d: seq<Call>, p: Plan, i: nat)
    requires Opening(d, p) && i < |d|
    ensures IsAddressing(d[i]) ==> i == 0 || i == |d| - 1
    ensures (d[i].SoftReset? ==> i == 1) && !IsDataPhase(d[i])
  {
    if 2 <= i < |d| - 1 {
      assert d[i] == d[1..|d| - 1][i - 1];
    }
  }

  lemma OpeningBounded(d: seq<Call>, p: Plan)
    requires Opening(d, p)
    ensures Bounded(d)
  {
    forall i | 0 <= i < |d|
      ensures IsAddressing(d[i]) ==> i == 0 || i == |d| - 1
      ensures d[i].SoftReset? ==> i == 1
      ensures !IsDataPhase(d[i])
    {
      OpeningKinds(d, p, i);
    }
  }

  lemma OneMoreCall(d: seq<Call>, c: Call)
    requires OneReset(d) && TwoAddressings(d) && !c.SoftReset? && !IsAddressing(c)
    ensures OneReset(d + [c]) && TwoAddressings(d + [c])
  {
    assert forall i :: 0 <= i < |d| ==> (d + [c])[i] == d[i];
  }

  /** Every transfer keeps the bound. */
  lemma TransferBounded(d: seq<Call>, p: Plan)
    requires Transfer(d, p) && |p.call| > 1 && p.call[1] == UNT
    ensures Bounded(d)
  {
    if IsDataPhase(d[|d| - 1]) {
      var o, n := d[..|d| - 1], |d| - 1;
      OpeningBounded(o, p);
      OneMoreCall(o, d[n]);
      assert o + [d[n]] == d;
      forall i | 0 <= i < n
        ensures !IsDataPhase(d[i])
      {
        OpeningKinds(o, p, i);
        assert o[i] == d[i];
      }
      assert o[n - 1] == d[n - 1];
    } else {
      OpeningBounded(d, p);
    }
  }

  lemma OpensAtOnce(c: Call, p: Plan)
    requires c == Commands(p.call, c.rc) && c.rc.Ok?
    ensures Opening([c], p) && AddressingResult([c]) == c.rc
  {
  }

  lemma RetryOpens(first: Call, r: seq<Call>, again: seq<Call>, p: Plan)
    requires first == Commands(p.call, first.rc) && !first.rc.Ok?
    requires RecoveryCalls(r, p.ren, Some(p.target))
    requires if r != [] && r[0].rc.Ok? then |again| == 1 && again[0] == Commands(p.call, again[0].rc) else again == []
    ensures var d := [first] + r + again;
            Opening(d, p) && AddressingResult(d) == (if again == [] then first.rc else again[0].rc)
  {
    var d := [first] + r + again;
    if again != [] {
      assert d[1..|d| - 1] == r;
      assert d[|d| - 1] == again[0] && d[1] == r[0];
    }
  }

  lemma DataEndsTransfer(d: seq<Call>, p: Plan, c: Call)
    requires Opening(d, p) && AddressingResult(d).Ok? && IsDataPhase(c)
    ensures Transfer(d + [c], p) && (d + [c])[|d|] == c
  {
    assert (d + [c])[..|d|] == d;
  }

  lemma FailedOpening(d: seq<Call>, p: Plan)
    requires Opening(d, p) && !AddressingResult(d).Ok?
    ensures Transfer(d, p) && !IsDataPhase(d[|d| - 1])
  {
    OpeningKinds(d, p, |d| - 1);
  }

  // ----- The board -----

  function Sta(rc: Rc): set<Flag> {
    if rc.Ok? then {} else if rc.TimedOut? then {ERR, TIMO} else {ERR}
  }

  function DataError(rc: Rc): Iberr {
    if rc.TimedOut? then EABO else if rc.Aborted? then ECIC else EBUS
  }

  function AsInt8(value: int): int {
    (value + 0x80) % 0x100 - 0x80
  }

  /** The REOS, XEOS and BIN bits of an EOS mode. */
  function EosBits(value: int): nat {
    value / 0x400 % 8 * 0x400
  }

  /** The microseconds of a timeout code; codes that do not exist are 3 s. */
  function TimeoutMicros(code: int): u32 {
    match code
    case 0 => 0xFFFF_FFFF
    case 1 => 10 case 2 => 30 case 3 => 100 case 4 => 300 case 5 => 1000 case 6 => 3000
    case 7 => 10_000 case 8 => 30_000 case 9 => 100_000 case 10 => 300_000
    case 11 => 1_000_000 case 12 => 3_000_000 case 13 => 10_000_000 case 14 => 30_000_000
    case 15 => 100_000_000 case 16 => 300_000_000 case 17 => 1_000_000_000
    case _ => 3_000_000
  }

  /** Two codes make a factor of ten, from 10 and 30 microseconds up. */
  lemma TimeoutTable(code: int)
    ensures TimeoutMicros(1) == 10 && TimeoutMicros(2) == 30 && TimeoutMicros(0) == 0xFFFF_FFFF
    ensures 3 <= code <= 17 ==> TimeoutMicros(code) == 10 * TimeoutMicros(code - 2)
    ensures code < 0 || code > 17 ==> TimeoutMicros(code) == TimeoutMicros(12) == 3_000_000
  {
  }

  function Configured(d: Descriptor, key: Key, value: int): Descriptor {
    match key
    case IbcPAD => d.(pad := value % 0x20)
    case IbcSAD => d.(sad := AsInt8(value))
    case IbcTMO => d.(timeoutUs := TimeoutMicros(value))
    case IbcEOT => d.(eot := value != 0)
    case IbcEOSchar => d.(eosChar := value % 0x100)
    case IbcEOSmode => d.(eosFlags := EosBits(value) % 0x100)
    case IbcOther => d
  }

  /** No setting gives a descriptor the REOS bit that the transports test, or any other EOS
      mode bit: the modes lie above the eight bits they are kept in. */
  lemma EosModeIsLost(d: Descriptor, value: int)
    ensures Configured(d, IbcEOSmode, value).eosFlags == 0
  {
    var q := value / 0x400 % 8;
    assert q * 0x400 == 0x100 * (4 * q);
  }

  /** A setting is kept as it is if it fits its field, and counts modulo the field's size if it
      does not; no other field changes. */
  lemma ConfiguredFits(d: Descriptor, value: int)
    ensures 0 <= value < 0x20 ==> Configured(d, IbcPAD, value) == d.(pad := value)
    ensures -0x80 <= value < 0x80 ==> Configured(d, IbcSAD, value) == d.(sad := value)
    ensures 0 <= value < 0x100 ==> Configured(d, IbcEOSchar, value) == d.(eosChar := value)
    ensures Configured(d, IbcTMO, value) == d.(timeoutUs := TimeoutMicros(value))
    ensures Configured(d, IbcEOT, 0) == d.(eot := false)
    ensures value != 0 ==> Configured(d, IbcEOT, value) == d.(eot := true)
    ensures Configured(d, IbcPAD, value) == Configured(d, IbcPAD, value + 0x20)
    ensures Configured(d, IbcSAD, value) == Configured(d, IbcSAD, value + 0x100)
    ensures Configured(d, IbcEOSchar, value) == Configured(d, IbcEOSchar, value + 0x100)
    ensures Configured(d, IbcOther, value) == d
  {
    assert (value + 0x20) % 0x20 == value % 0x20;
    assert (value + 0x100) % 0x100 == value % 0x100;
    assert (value + 0x80 + 0x100) % 0x100 == (value + 0x80) % 0x100;
  }

  /** The target of a descriptor is the address that it was opened for, its secondary address
      if it has one. */
  lemma TargetIsAddress(d: Descriptor)
    ensures d.pad < 0x20 && d.sad < 0 ==> d.Target() == Address(d.pad, None)
    ensures d.pad < 0x20 && 0 <= d.sad < 0x20 ==> d.Target() == Address(d.pad, Some(d.sad))
    ensures 0x20 <= d.pad ==> d.Target() == d.(pad := d.pad - 0x20).Target()
    ensures 0x20 <= d.sad ==> d.Target() == d.(sad := d.sad - 0x20).Target()
  {
  }

  /** Exactly these command bytes were sent, and status and error say whether that worked. */
  predicate SentOne(before: seq<Call>, after: seq<Call>, cmds: seq<byte>, done: set<Flag>, sta: set<Flag>, err: Iberr) {
    && |after| == |before| + 1 && after[..|before|] == before
    && after[|before|] == Commands(cmds, after[|before|].rc)
    && (if after[|before|].rc.Ok? then sta == done && err == NoError else sta == {ERR} && err == EBUS)
  }

  /** The status and error that the last call of a transfer leaves. */
  predicate Reports(rc: Rc, done: set<Flag>, sta: set<Flag>, err: Iberr) {
    match rc
    case Ok => sta == done && err == NoError
    case TimedOut => sta == {ERR, TIMO} && err == EABO
    case Aborted => sta == {ERR} && err == ECIC
    case _ => sta == {ERR} && err == EBUS
  }

  /** And those of an addressing call. */
  predicate AddressReports(rc: Rc, sta: set<Flag>, err: Iberr) {
    match rc
    case Ok => sta == {} && err == NoError
    case TimedOut => sta == {ERR, TIMO} && err == EABO
    case _ => sta == {ERR} && err == ENOL
  }

  /** Status, count and error are those of the data call, if it came to one. */
  predicate WriteReport(delta: seq<Call>, buf: seq<byte>, eoi: bool, us: u32, sta: set<Flag>, ibcnt: nat, err: Iberr)
    requires delta != []
  {
    var c := delta[|delta| - 1];
    if c.Data? then c == Data(buf, eoi, us, c.rc, ibcnt) && Reports(c.rc, {CMPL}, sta, err)
    else
      && sta == {ERR} && ibcnt == 0 && !c.Read?
      && err == if AddressingResult(delta).TimedOut? then EABO else ENOL
  }

  predicate ReadReport(delta: seq<Call>, count: nat, terms: Terms, sta: set<Flag>, data: seq<byte>, end: bool,
                       err: Iberr)
    requires delta != []
  {
    var c := delta[|delta| - 1];
    if c.Read? then
      && c == Call.Read(count, terms, c.rc, data, end)
      && Reports(c.rc, if end then {CMPL, END} else {CMPL}, sta, err)
    else
      && sta == {ERR} && data == [] && !end && !c.Data?
      && err == if AddressingResult(delta).TimedOut? then EABO else ENOL
  }

  lemma WriteEnds(calls: seq<Call>, d: seq<Call>, p: Plan, c: Call, buf: seq<byte>, eoi: bool, us: u32,
                  sta: set<Flag>, ibcnt: nat, err: Iberr)
    requires Opening(d, p) && AddressingResult(d).Ok?
    requires c == Data(buf, eoi, us, c.rc, ibcnt) && Reports(c.rc, {CMPL}, sta, err)
    ensures Transfer(d + [c], p) && WriteReport(d + [c], buf, eoi, us, sta, ibcnt, err)
    ensures calls + d + [c] == calls + (d + [c])
  {
    DataEndsTransfer(d, p, c);
  }

  lemma WriteStops(d: seq<Call>, p: Plan, buf: seq<byte>, eoi: bool, us: u32)
    requires Opening(d, p) && !AddressingResult(d).Ok?
    ensures Transfer(d, p)
    ensures WriteReport(d, buf, eoi, us, {ERR}, 0, if AddressingResult(d).TimedOut? then EABO else ENOL)
  {
    FailedOpening(d, p);
  }

  class GpibBoard {
    const link: Transport
    const descriptors: array<Descriptor>
    var boardPad: nat
    var online: bool
    var renRequested: bool
    var recoveryInProgress: bool
    var ibsta: set<Flag>

    ghost predicate Valid()
      reads this, link, descriptors
    {
      && descriptors.Length == MAX_DESCRIPTORS
      && (forall i :: 0 <= i < MAX_DESCRIPTORS ==> descriptors[i].handle == -1 || (descriptors[i].handle == i && i > 0))
      && link.wire.Valid() && link.wire.board.addr == Address(boardPad, None)
      && !recoveryInProgress
    }

    ghost function Live(): (s: set<int>)
      requires descriptors.Length == MAX_DESCRIPTORS
      reads descriptors
      ensures forall h :: h in s ==> IsSlot(h)
    {
      set h | 1 <= h < MAX_DESCRIPTORS && descriptors[h].handle >= 0
    }

    predicate IsOpen(h: int)
      requires descriptors.Length == MAX_DESCRIPTORS
      reads descriptors
    {
      0 <= h < MAX_DESCRIPTORS && descriptors[h].handle >= 0
    }

    /** Open, and not on the board's own address. */
    predicate Reaches(h: int)
      requires descriptors.Length == MAX_DESCRIPTORS
      reads this, descriptors
    {
      IsOpen(h) && descriptors[h].Target().pad != boardPad
    }

    /** The REN line is what clients last asked for. */
    ghost predicate RenAgrees()
      reads this, link
    {
      link.wire.ren == renRequested
    }

    ghost predicate RenReliable() {
      forall k :: link.renOutcome(k).Ok?
    }

    constructor (transport: Transport)
      requires transport.wire.Valid() && transport.wire.board.addr == Address(0, None)
      ensures Valid() && link == transport && fresh(descriptors) && Live() == {}
      ensures !renRequested && !online
    {
      link := transport;
      descriptors := new Descriptor[MAX_DESCRIPTORS](_ => Descriptor(-1, false, 0, -1, false, 0, 0, 0));
      boardPad, online, renRequested, recoveryInProgress, ibsta := 0, false, false, false, {};
    }

    // ----- Descriptor table -----

    method AllocateHandle() returns (h: int)
      requires Valid()
      modifies descriptors
      ensures Valid() && h == FirstFree(old(Live()))
      ensures Live() == old(Live()) + (if h < 0 then {} else {h})
      ensures forall i :: 0 <= i < MAX_DESCRIPTORS && i != h ==> descriptors[i] == old(descriptors[i])
    {
      var i := 1;
      while i < MAX_DESCRIPTORS
        invariant 1 <= i <= MAX_DESCRIPTORS
        invariant forall j :: 1 <= j < i ==> j in old(Live())
        invariant forall j :: 0 <= j < MAX_DESCRIPTORS ==> descriptors[j] == old(descriptors[j])
      {
        if descriptors[i].handle < 0 {
          FirstFreeIs(old(Live()), i);
          descriptors[i] := descriptors[i].(handle := i);
          return i;
        }
        i := i + 1;
      }
      return -1;
    }

    method OpenDescriptor(pad: byte, sad: int, isBoard: bool, timeoutUs: u32, eosChar: byte,
                          eosFlags: byte, eot: bool) returns (h: int, sta: set<Flag>, err: Iberr)
      requires Valid() && -0x80 <= sad < 0x80
      modifies descriptors
      ensures Valid() && h == FirstFree(old(Live()))
      ensures Live() == old(Live()) + (if h < 0 then {} else {h})
      ensures if h < 0 then sta == {ERR} && err == ETAB
              else
                && descriptors[h] == Descriptor(h, isBoard, pad, sad, eot, eosChar, eosFlags, timeoutUs)
                && sta == {CMPL}
      ensures forall i :: 0 <= i < MAX_DESCRIPTORS && i != h ==> descriptors[i] == old(descriptors[i])
    {
      h := AllocateHandle();
      if h < 0 {
        return h, {ERR}, ETAB;
      }
      assert h in Live();
      ghost var live := Live();
      label Taken:
      descriptors[h] := Descriptor(h, isBoard, pad, sad, eot, eosChar, eosFlags, timeoutUs);
      assert forall i :: 0 <= i < MAX_DESCRIPTORS ==> descriptors[i].handle == old@Taken(descriptors[i].handle);
      assert Live() == live;
      sta, err := {CMPL}, NoError;
    }

    method CloseDescriptor(h: int) returns (sta: set<Flag>, err: Iberr)
      requires Valid()
      modifies descriptors, this`ibsta
      ensures Valid() && Live() == old(Live()) - {h}
      ensures if old(IsOpen(h)) then sta == {CMPL} && err == NoError else sta == {ERR} && err == EARG
      ensures forall i :: 0 <= i < MAX_DESCRIPTORS && i != h ==> descriptors[i] == old(descriptors[i])
    {
      if !IsOpen(h) {
        sta, err, ibsta := {ERR}, EARG, {ERR};
        return;
      }
      descriptors[h] := descriptors[h].(handle := -1);
      sta, err, ibsta := {CMPL}, NoError, {CMPL};
    }

    method Configure(h: int, key: Key, value: int) returns (sta: set<Flag>, err: Iberr)
      requires Valid()
      modifies descriptors, this`ibsta
      ensures Valid() && Live() == old(Live()) && sta == ibsta
      ensures if !old(IsOpen(h)) then sta == {ERR} && err == EARG
              else if key == IbcOther then sta == {ERR} && err == ECAP
              else sta == {CMPL} && err == NoError
      ensures old(IsOpen(h)) ==> descriptors[h] == Configured(old(descriptors[h]), key, value)
      ensures forall i :: 0 <= i < MAX_DESCRIPTORS && i != h ==> descriptors[i] == old(descriptors[i])
    {
      if !IsOpen(h) {
        sta, err, ibsta := {ERR}, EARG, {ERR};
        return;
      }
      var d := descriptors[h];
      match key {
        case IbcPAD => d := d.(pad := value % 0x20);
        case IbcSAD => d := d.(sad := AsInt8(value));
        case IbcTMO => d := d.(timeoutUs := TimeoutMicros(value));
        case IbcEOT => d := d.(eot := value != 0);
        case IbcEOSchar => d := d.(eosChar := value % 0x100);
        case IbcEOSmode => d := d.(eosFlags := EosBits(value) % 0x100);
        case IbcOther =>
          sta, err, ibsta := {ERR}, ECAP, {ERR};
          return;
      }
      ghost var live := Live();
      descriptors[h] := d;
      assert Live() == live;
      sta, err, ibsta := {CMPL}, NoError, {CMPL};
    }

    // ----- Addressing -----

    method AddressForWrite(d: Descriptor) returns (sta: set<Flag>, err: Iberr)
      requires link.wire.Valid() && link.wire.board.addr == Address(boardPad, None)
      modifies link
      ensures link.wire.Valid() && link.wire.ren == old(link.wire.ren)
      ensures Kept(old(link.wire), link.wire, d.Target(), 0)
      ensures exists rc ::
                && AddressReports(rc, sta, err)
                && link.calls == old(link.calls) + [Commands(WriteCall(boardPad, d.Target()), rc)]
      ensures ERR !in sta && d.Target().pad != boardPad ==> TalkingTo(link.wire, d.Target())
    {
      var cmds: seq<byte> := [UNL, UNT, Mta(boardPad), Mla(d.pad)];
      if d.sad >= 0 {
        cmds := cmds + [d.sad % 0x20 + SAD];
      }
      assert cmds == WriteCall(boardPad, d.Target());
      assert forall i :: 0 <= i < |cmds| ==> Passive(cmds[i]);
      var rc, reach := link.SendCommandBytes(cmds);
      PassiveCallKeeps(old(link.wire), d.Target(), cmds[..reach]);
      if !rc.Ok? {
        return Sta(rc), if rc.TimedOut? then EABO else ENOL;
      }
      assert cmds[..reach] == cmds;
      if d.Target().pad != boardPad {
        WriteCallOnWire(old(link.wire), d.Target());
      }
      return Sta(rc), NoError;
    }

    method AddressForRead(d: Descriptor) returns (sta: set<Flag>, err: Iberr)
      requires link.wire.Valid() && link.wire.board.addr == Address(boardPad, None)
      modifies link
      ensures link.wire.Valid() && link.wire.ren == old(link.wire.ren)
      ensures Kept(old(link.wire), link.wire, d.Target(), 0)
      ensures exists rc ::
                && AddressReports(rc, sta, err)
                && link.calls == old(link.calls) + [Commands(ReadCall(boardPad, d.Target()), rc)]
      ensures ERR !in sta && d.Target().pad != boardPad ==> ListeningTo(link.wire, d.Target())
    {
      var cmds: seq<byte> := [UNL, UNT, Mla(boardPad), Mta(d.pad)];
      if d.sad >= 0 {
        cmds := cmds + [d.sad % 0x20 + SAD];
      }
      assert cmds == ReadCall(boardPad, d.Target());
      assert forall i :: 0 <= i < |cmds| ==> Passive(cmds[i]);
      var rc, reach := link.SendCommandBytes(cmds);
      PassiveCallKeeps(old(link.wire), d.Target(), cmds[..reach]);
      if !rc.Ok? {
        return Sta(rc), if rc.TimedOut? then EABO else ENOL;
      }
      assert cmds[..reach] == cmds;
      if d.Target().pad != boardPad {
        ReadCallOnWire(old(link.wire), d.Target());
      }
      return Sta(rc), NoError;
    }

    /** Build and send UNL, the listen address and one addressed command. */
    method SendAddressed(d: Descriptor, op: byte) returns (rc: Rc, ghost reach: nat)
      requires link.wire.Valid() && AddressedOp(op)
      modifies link
      ensures reach <= |CommandCall(d.Target(), op)| && (rc.Ok? ==> reach == |CommandCall(d.Target(), op)|)
      ensures link.wire == old(link.wire).Deliver(CommandCall(d.Target(), op)[..reach]) && link.wire.Valid()
      ensures link.calls == old(link.calls) + [Commands(CommandCall(d.Target(), op), rc)]
    {
      var cmds: seq<byte> := [UNL, Mla(d.pad)];
      if d.sad >= 0 {
        cmds := cmds + [d.sad % 0x20 + SAD];
      }
      cmds := cmds + [op];
      assert cmds == CommandCall(d.Target(), op);
      rc, reach := link.SendCommandBytes(cmds);
    }

    // ----- Recovery -----

    /** The calls of a recovery in their order, or none at all when it is re-entered. A device
        clear that got through has cleared the target exactly once, and nobody else. */
    method RecoverBus(target: Option<Descriptor>) returns (recovered: bool, ghost delta: seq<Call>)
      requires link.wire.Valid() && link.wire.board.addr == Address(boardPad, None)
      modifies link, this`recoveryInProgress
      ensures link.wire.Valid() && link.wire.board.addr == Address(boardPad, None)
      ensures recoveryInProgress == old(recoveryInProgress) && link.calls == old(link.calls) + delta
      ensures if old(recoveryInProgress) then !recovered && delta == []
              else RecoveryCalls(delta, renRequested, TargetOf(target)) && recovered == delta[0].rc.Ok?
      ensures !recovered ==> link.wire == old(link.wire)
      ensures target.Some? ==>
        Cleared(old(link.wire), link.wire, target.value.Target(), recovered && delta[|delta| - 1].rc.Ok?)
      ensures RenReliable() && old(RenAgrees()) ==> RenAgrees()
    {
      delta := [];
      if recoveryInProgress {
        return false, delta;
      }
      recoveryInProgress := true;
      var rc := link.SoftReset();
      delta := [Call.SoftReset(rc)];
      recovered := rc.Ok?;
      if recovered {
        ghost var reset := link.wire;
        ghost var more := Restore(target);
        delta := delta + more;
        assert delta[|delta| - 1] == more[|more| - 1];
        if target.Some? {
          ResetKeeps(old(link.wire), target.value.Target());
          ClearedAfter(old(link.wire), reset, link.wire, target.value.Target(), more[|more| - 1].rc.Ok?);
        }
      }
      recoveryInProgress := false;
    }

    /** The part of a recovery that follows a soft reset that worked. */
    method Restore(target: Option<Descriptor>) returns (ghost delta: seq<Call>)
      requires link.wire.Valid() && link.wire.board.addr == Address(boardPad, None)
      modifies link
      ensures link.wire.Valid() && link.wire.board.addr == Address(boardPad, None)
      ensures link.calls == old(link.calls) + delta
      ensures delta != [] && RecoveryCalls([Call.SoftReset(Ok)] + delta, renRequested, TargetOf(target))
      ensures target.Some? ==>
        Cleared(old(link.wire), link.wire, target.value.Target(), delta[|delta| - 1].rc.Ok?)
      ensures RenReliable() && !old(link.wire.ren) ==> RenAgrees()
    {
      ghost var calls := RestoreController();
      ghost var before := link.wire;
      ghost var clear := ClearInstrument(target);
      delta := calls + clear;
      if target.Some? {
        ClearedAfter(old(link.wire), before, link.wire, target.value.Target(), clear[0].rc.Ok?);
      }
    }

    /** Selected device clear to the instrument whose transfer failed, if there is one. */
    method ClearInstrument(target: Option<Descriptor>) returns (ghost delta: seq<Call>)
      requires link.wire.Valid()
      modifies link
      ensures link.wire.Valid() && link.wire.ren == old(link.wire.ren)
      ensures link.wire.board.addr == old(link.wire.board.addr) && link.calls == old(link.calls) + delta
      ensures if target.None? then delta == [] && link.wire == old(link.wire)
              else |delta| == 1 && delta[0] == Commands(CommandCall(target.value.Target(), SDC), delta[0].rc)
      ensures target.Some? ==>
        && Acted(old(link.wire), link.wire, target.value.Target(), SDC, delta[0].rc.Ok?)
        && Cleared(old(link.wire), link.wire, target.value.Target(), delta[0].rc.Ok?)
    {
      delta := [];
      if target.Some? {
        var rc, reach := SendAddressed(target.value, SDC);
        delta := [Commands(CommandCall(target.value.Target(), SDC), rc)];
        CommandCallActs(old(link.wire), target.value.Target(), SDC, reach);
        ClearCallKeeps(old(link.wire), target.value.Target(), reach);
      }
    }

    /** After a reset of the core: controller-in-charge again, and REN if it was asked for. */
    method RestoreController() returns (ghost delta: seq<Call>)
      requires link.wire.Valid()
      modifies link
      ensures link.wire.Valid() && link.wire.board.addr == old(link.wire.board.addr)
      ensures link.calls == old(link.calls) + delta && |delta| == (if renRequested then 3 else 2)
      ensures delta[0].ClearInterfaces? && delta[1].TakeControl?
      ensures renRequested ==> delta[2] == Call.RemoteEnable(true, delta[2].rc)
      ensures forall a :: Kept(old(link.wire), link.wire, a, 0)
      ensures RenReliable() && !old(link.wire.ren) ==> RenAgrees()
    {
      var a := link.PulseInterfaceClear();
      var b := link.TakeControl();
      delta := [ClearInterfaces(a), Call.TakeControl(b)];
      if renRequested {
        var c := link.SetRemoteEnable(true);
        delta := delta + [Call.RemoteEnable(true, c)];
      }
    }

    function TargetOf(target: Option<Descriptor>): Option<Address> {
      if target.None? then None else Some(target.value.Target())
    }

    function TermsOf(d: Descriptor): Terms {
      Terms(d.eosChar, d.eosFlags, d.timeoutUs)
    }

    /** What a transfer on this descriptor has to send. */
    function PlanFor(d: Descriptor, reading: bool): Plan
      reads this
    {
      var call := if reading then ReadCall(boardPad, d.Target()) else WriteCall(boardPad, d.Target());
      Plan(call, renRequested, d.Target())
    }

    // ----- Data -----

    /** Address the target for a transfer, recovering the bus and trying once more if that
        fails: the opening of both `write` and `read`. */
    method Prepare(d: Descriptor, reading: bool) returns (sta: set<Flag>, err: Iberr, ghost delta: seq<Call>)
      requires link.wire.Valid() && link.wire.board.addr == Address(boardPad, None) && !recoveryInProgress
      modifies link, this`recoveryInProgress
      ensures link.wire.Valid() && link.wire.board.addr == Address(boardPad, None) && !recoveryInProgress
      ensures link.calls == old(link.calls) + delta && Opening(delta, PlanFor(d, reading))
      ensures AddressReports(AddressingResult(delta), sta, err)
      ensures Kept(old(link.wire), link.wire, d.Target(), 1)
      ensures ERR !in sta && d.Target().pad != boardPad ==>
        if reading then ListeningTo(link.wire, d.Target()) else TalkingTo(link.wire, d.Target())
      ensures RenReliable() && old(RenAgrees()) ==> RenAgrees()
    {
      ghost var p, rc := PlanFor(d, reading), Ok;
      sta, err, rc := AddressFor(d, reading);
      ghost var c, w := Commands(p.call, rc), link.wire;
      if ERR !in sta {
        OpensAtOnce(c, p);
        return sta, err, [c];
      }
      ghost var more;
      sta, err, more := Reopen(d, reading, c, sta, err);
      KeptTrans(old(link.wire), w, link.wire, d.Target(), 0, 1);
      delta := [c] + more;
      Associative(old(link.calls), [c], more);
    }

    /** What follows an addressing call `c` that failed; together they open the transfer. */
    method Reopen(d: Descriptor, reading: bool, ghost c: Call, failed: set<Flag>, why: Iberr)
      returns (sta: set<Flag>, err: Iberr, ghost more: seq<Call>)
      requires link.wire.Valid() && link.wire.board.addr == Address(boardPad, None) && !recoveryInProgress
      requires c == Commands(PlanFor(d, reading).call, c.rc) && !c.rc.Ok?
      requires AddressReports(c.rc, failed, why)
      modifies link, this`recoveryInProgress
      ensures link.wire.Valid() && link.wire.board.addr == Address(boardPad, None) && !recoveryInProgress
      ensures link.calls == old(link.calls) + more && Opening([c] + more, PlanFor(d, reading))
      ensures AddressReports(AddressingResult([c] + more), sta, err)
      ensures Kept(old(link.wire), link.wire, d.Target(), 1)
      ensures ERR !in sta && d.Target().pad != boardPad ==>
        if reading then ListeningTo(link.wire, d.Target()) else TalkingTo(link.wire, d.Target())
      ensures RenReliable() && old(RenAgrees()) ==> RenAgrees()
    {
      ghost var r, again;
      sta, err, r, again := RecoverAndRetry(d, reading, failed, why);
      more := r + again;
      Associative([c], r, again);
      Associative(old(link.calls), r, again);
      RetryOpens(c, r, again, PlanFor(d, reading));
    }

    /** Recovery, and exactly if it works one more addressing call; otherwise the failure stands. */
    method RecoverAndRetry(d: Descriptor, reading: bool, failed: set<Flag>, why: Iberr)
      returns (sta: set<Flag>, err: Iberr, ghost r: seq<Call>, ghost again: seq<Call>)
      requires link.wire.Valid() && link.wire.board.addr == Address(boardPad, None)
      requires !recoveryInProgress && ERR in failed
      modifies link, this`recoveryInProgress
      ensures link.wire.Valid() && link.wire.board.addr == Address(boardPad, None) && !recoveryInProgress
      ensures link.calls == old(link.calls) + r + again && RecoveryCalls(r, renRequested, Some(d.Target()))
      ensures if r[0].rc.Ok? then
                && |again| == 1 && again[0] == Commands(PlanFor(d, reading).call, again[0].rc)
                && AddressReports(again[0].rc, sta, err)
              else again == [] && sta == failed && err == why
      ensures Kept(old(link.wire), link.wire, d.Target(), 1)
      ensures ERR !in sta && d.Target().pad != boardPad ==>
        if reading then ListeningTo(link.wire, d.Target()) else TalkingTo(link.wire, d.Target())
      ensures RenReliable() && old(RenAgrees()) ==> RenAgrees()
    {
      sta, err, again := failed, why, [];
      var recovered;
      recovered, r := RecoverBus(Some(d));
      if recovered {
        ghost var w, rc := link.wire, Ok;
        sta, err, rc := AddressFor(d, reading);
        again := [Commands(PlanFor(d, reading).call, rc)];
        KeptTrans(old(link.wire), w, link.wire, d.Target(), 1, 0);
      }
    }

    method AddressFor(d: Descriptor, reading: bool) returns (sta: set<Flag>, err: Iberr, ghost rc: Rc)
      requires link.wire.Valid() && link.wire.board.addr == Address(boardPad, None)
      modifies link
      ensures link.wire.Valid() && link.wire.ren == old(link.wire.ren)
      ensures link.wire.board.addr == old(link.wire.board.addr)
      ensures Kept(old(link.wire), link.wire, d.Target(), 0)
      ensures link.calls == old(link.calls) + [Commands(PlanFor(d, reading).call, rc)]
      ensures AddressReports(rc, sta, err)
      ensures ERR !in sta && d.Target().pad != boardPad ==>
        if reading then ListeningTo(link.wire, d.Target()) else TalkingTo(link.wire, d.Target())
    {
      if reading {
        sta, err := AddressForRead(d);
      } else {
        sta, err := AddressForWrite(d);
      }
      rc := link.calls[|link.calls| - 1].rc;
    }

    /** The bytes that went out reached exactly the instruments that answer to the target,
        whatever the bus looked like before and whatever failed on the way; success means
        all of them went out. Recovery may clear that target once and nobody else. */
    method Write(h: int, buf: seq<byte>, sendEoi: bool)
      returns (sta: set<Flag>, ibcnt: nat, err: Iberr, ghost sent: nat, ghost delta: seq<Call>)
      requires Valid()
      modifies link, this`ibsta, this`recoveryInProgress
      ensures Valid() && sta == ibsta && link.calls == old(link.calls) + delta
      ensures sent <= |buf| && (CMPL in sta <==> ERR !in sta) && (CMPL in sta ==> sent == |buf| == ibcnt)
      ensures if !IsOpen(h) || !online
              then delta == [] && sta == {ERR} && ibcnt == sent == 0 && err == (if IsOpen(h) then ENEB else EARG)
              else
                && Transfer(delta, PlanFor(descriptors[h], false))
                && WriteReport(delta, buf, sendEoi && descriptors[h].eot, descriptors[h].timeoutUs, sta, ibcnt, err)
      ensures Reaches(h) ==> Received(old(link.wire), link.wire, descriptors[h].Target(),
                                      Tag(buf, sendEoi && descriptors[h].eot)[..sent])
      ensures Reaches(h) ==> ActedAtMostOnce(old(link.wire), link.wire, descriptors[h].Target())
      ensures Reaches(h) && CMPL in sta ==> TalkingTo(link.wire, descriptors[h].Target())
      ensures RenReliable() && old(RenAgrees()) ==> RenAgrees()
    {
      sent, delta, ibcnt := 0, [], 0;
      if !IsOpen(h) {
        sta, err, ibsta := {ERR}, EARG, {ERR};
        return;
      }
      if !online {
        sta, err, ibsta := {ERR}, ENEB, {ERR};
        return;
      }
      var d := descriptors[h];
      sta, ibcnt, err, sent, delta := AddressedWrite(d, buf, sendEoi && d.eot);
      ibsta := sta;
    }

    method AddressedWrite(d: Descriptor, buf: seq<byte>, eoi: bool)
      returns (sta: set<Flag>, ibcnt: nat, err: Iberr, ghost sent: nat, ghost delta: seq<Call>)
      requires link.wire.Valid() && link.wire.board.addr == Address(boardPad, None) && !recoveryInProgress
      modifies link, this`recoveryInProgress
      ensures link.wire.Valid() && link.wire.board.addr == Address(boardPad, None) && !recoveryInProgress
      ensures link.calls == old(link.calls) + delta && Transfer(delta, PlanFor(d, false))
      ensures WriteReport(delta, buf, eoi, d.timeoutUs, sta, ibcnt, err)
      ensures sent <= |buf| && (CMPL in sta <==> ERR !in sta) && (CMPL in sta ==> sent == |buf| == ibcnt)
      ensures d.Target().pad != boardPad ==>
        && Received(old(link.wire), link.wire, d.Target(), Tag(buf, eoi)[..sent])
        && ActedAtMostOnce(old(link.wire), link.wire, d.Target()) && (CMPL in sta ==> TalkingTo(link.wire, d.Target()))
      ensures RenReliable() && old(RenAgrees()) ==> RenAgrees()
    {
      sta, err, delta := Prepare(d, false);
      if ERR in sta {
        WriteStops(delta, PlanFor(d, false), buf, eoi, d.timeoutUs);
        KeptIsNothing(old(link.wire), link.wire, d.Target(), Tag(buf, eoi));
        return {ERR}, 0, err, 0, delta;
      }
      ghost var rc, opening := Ok, delta;
      sta, ibcnt, err, sent, rc := DataPhase(old(link.wire), d, buf, eoi);
      ghost var c := Data(buf, eoi, d.timeoutUs, rc, ibcnt);
      WriteEnds(old(link.calls), opening, PlanFor(d, false), c, buf, eoi, d.timeoutUs, sta, ibcnt, err);
      delta := opening + [c];
    }

    method DataPhase(ghost start: Wire, d: Descriptor, buf: seq<byte>, eoi: bool)
      returns (sta: set<Flag>, ibcnt: nat, err: Iberr, ghost sent: nat, ghost rc: Rc)
      requires link.wire.Valid()
      requires d.Target().pad != boardPad ==>
        Kept(start, link.wire, d.Target(), 1) && TalkingTo(link.wire, d.Target())
      modifies link
      ensures link.wire.Valid() && link.wire.ren == old(link.wire.ren) && link.wire.board == old(link.wire.board)
      ensures link.calls == old(link.calls) + [Data(buf, eoi, d.timeoutUs, rc, ibcnt)] && Reports(rc, {CMPL}, sta, err)
      ensures sent <= |buf| && (rc.Ok? ==> sent == |buf| == ibcnt)
      ensures d.Target().pad != boardPad ==>
        && Received(start, link.wire, d.Target(), Tag(buf, eoi)[..sent])
        && ActedAtMostOnce(start, link.wire, d.Target()) && TalkingTo(link.wire, d.Target())
    {
      var result;
      result, ibcnt, sent := link.WriteData(buf, eoi, d.timeoutUs);
      rc := result;
      if d.Target().pad != boardPad {
        SentToTarget(start, old(link.wire), d.Target(), Tag(buf, eoi)[..sent]);
      }
      if !result.Ok? {
        sta, err := Sta(result), DataError(result);
      } else {
        sta, err := {CMPL}, NoError;
      }
    }

    method Read(h: int, count: nat)
      returns (sta: set<Flag>, data: seq<byte>, end: bool, err: Iberr, ghost delta: seq<Call>)
      requires Valid()
      modifies link, this`ibsta, this`recoveryInProgress
      ensures Valid() && sta == ibsta && link.calls == old(link.calls) + delta
      ensures |data| <= count && (CMPL in sta <==> ERR !in sta)
      ensures if !IsOpen(h) || !online
              then delta == [] && sta == {ERR} && data == [] && !end && err == (if IsOpen(h) then ENEB else EARG)
              else
                && Transfer(delta, PlanFor(descriptors[h], true))
                && ReadReport(delta, count, TermsOf(descriptors[h]), sta, data, end, err)
      ensures Reaches(h) ==> Kept(old(link.wire), link.wire, descriptors[h].Target(), 1)
      ensures Reaches(h) && (data != [] || CMPL in sta) ==> ListeningTo(link.wire, descriptors[h].Target())
      ensures RenReliable() && old(RenAgrees()) ==> RenAgrees()
    {
      data, end, delta := [], false, [];
      if !IsOpen(h) {
        sta, err, ibsta := {ERR}, EARG, {ERR};
        return;
      }
      if !online {
        sta, err, ibsta := {ERR}, ENEB, {ERR};
        return;
      }
      sta, data, end, err, delta := AddressedRead(descriptors[h], count);
      ibsta := sta;
    }

    method AddressedRead(d: Descriptor, count: nat)
      returns (sta: set<Flag>, data: seq<byte>, end: bool, err: Iberr, ghost delta: seq<Call>)
      requires link.wire.Valid() && link.wire.board.addr == Address(boardPad, None) && !recoveryInProgress
      modifies link, this`recoveryInProgress
      ensures link.wire.Valid() && link.wire.board.addr == Address(boardPad, None) && !recoveryInProgress
      ensures link.calls == old(link.calls) + delta && Transfer(delta, PlanFor(d, true))
      ensures ReadReport(delta, count, TermsOf(d), sta, data, end, err)
      ensures |data| <= count && (CMPL in sta <==> ERR !in sta)
      ensures d.Target().pad != boardPad ==>
        && Kept(old(link.wire), link.wire, d.Target(), 1)
        && (data != [] || CMPL in sta ==> ListeningTo(link.wire, d.Target()))
      ensures RenReliable() && old(RenAgrees()) ==> RenAgrees()
    {
      sta, err, delta := Prepare(d, true);
      if ERR in sta {
        FailedOpening(delta, PlanFor(d, true));
        return {ERR}, [], false, err, delta;
      }
      var rc;
      rc, data, end := link.ReadData(count, Terms(d.eosChar, d.eosFlags, d.timeoutUs));
      DataEndsTransfer(delta, PlanFor(d, true), Call.Read(count, TermsOf(d), rc, data, end));
      delta := delta + [Call.Read(count, TermsOf(d), rc, data, end)];
      if !rc.Ok? {
        err, sta := DataError(rc), Sta(rc);
      } else {
        err, sta := NoError, if end then {CMPL, END} else {CMPL};
      }
    }

    // ----- Addressed and universal commands -----

    method Addressed(h: int, op: byte) returns (sta: set<Flag>, err: Iberr)
      requires Valid() && AddressedOp(op)
      modifies link, this`ibsta
      ensures Valid() && sta == ibsta && link.wire.ren == old(link.wire.ren)
      ensures IsOpen(h) ==>
        Acted(old(link.wire), link.wire, descriptors[h].Target(), op, CMPL in sta)
      ensures if !IsOpen(h) then err == EARG && sta == {ERR} && link.wire == old(link.wire)
              else SentOne(old(link.calls), link.calls, CommandCall(descriptors[h].Target(), op), {CMPL}, sta, err)
      ensures CMPL in sta <==> ERR !in sta
    {
      if !IsOpen(h) {
        sta, err, ibsta := {ERR}, EARG, {ERR};
        return;
      }
      var d := descriptors[h];
      var rc, reach := SendAddressed(d, op);
      CommandCallActs(old(link.wire), d.Target(), op, reach);
      if !rc.Ok? {
        sta, err, ibsta := {ERR}, EBUS, {ERR};
        return;
      }
      sta, err, ibsta := {CMPL}, NoError, {CMPL};
    }

    method DeviceClear(h: int) returns (sta: set<Flag>, err: Iberr)
      requires Valid()
      modifies link, this`ibsta
      ensures Valid() && sta == ibsta && link.wire.ren == old(link.wire.ren)
      ensures IsOpen(h) ==>
        Acted(old(link.wire), link.wire, descriptors[h].Target(), SDC, CMPL in sta)
      ensures if !IsOpen(h) then err == EARG && sta == {ERR} && link.wire == old(link.wire)
              else SentOne(old(link.calls), link.calls, CommandCall(descriptors[h].Target(), SDC), {CMPL}, sta, err)
    {
      sta, err := Addressed(h, SDC);
    }

    method Trigger(h: int) returns (sta: set<Flag>, err: Iberr)
      requires Valid()
      modifies link, this`ibsta
      ensures Valid() && sta == ibsta && link.wire.ren == old(link.wire.ren)
      ensures IsOpen(h) ==>
        Acted(old(link.wire), link.wire, descriptors[h].Target(), GET, CMPL in sta)
      ensures if !IsOpen(h) then err == EARG && sta == {ERR} && link.wire == old(link.wire)
              else SentOne(old(link.calls), link.calls, CommandCall(descriptors[h].Target(), GET), {CMPL}, sta, err)
    {
      sta, err := Addressed(h, GET);
    }

    method GoToLocal(h: int) returns (sta: set<Flag>, err: Iberr)
      requires Valid()
      modifies link, this`ibsta
      ensures Valid() && sta == ibsta && link.wire.ren == old(link.wire.ren)
      ensures IsOpen(h) ==>
        Acted(old(link.wire), link.wire, descriptors[h].Target(), GTL, CMPL in sta)
      ensures if !IsOpen(h) then err == EARG && sta == {ERR} && link.wire == old(link.wire)
              else SentOne(old(link.calls), link.calls, CommandCall(descriptors[h].Target(), GTL), {CMPL}, sta, err)
    {
      sta, err := Addressed(h, GTL);
    }

    method SendCommands(cmds: seq<byte>) returns (sta: set<Flag>, ibcnt: nat, err: Iberr)
      requires Valid()
      modifies link, this`ibsta
      ensures Valid() && sta == ibsta && link.wire.ren == old(link.wire.ren)
      ensures CMPL in sta ==> ibcnt == |cmds| && link.wire == old(link.wire).Deliver(cmds)
      ensures CMPL !in sta ==> ibcnt == 0 && err == EBUS
      ensures SentOne(old(link.calls), link.calls, cmds, {CMPL}, sta, err)
    {
      var rc, reach := link.SendCommandBytes(cmds);
      if !rc.Ok? {
        sta, ibcnt, err, ibsta := {ERR}, 0, EBUS, {ERR};
        return;
      }
      assert cmds[..reach] == cmds;
      sta, ibcnt, err, ibsta := {CMPL}, |cmds|, NoError, {CMPL};
    }

    method LocalLockout() returns (sta: set<Flag>, err: Iberr)
      requires Valid()
      modifies link, this`ibsta
      ensures Valid() && sta == ibsta && link.wire.ren == old(link.wire.ren)
      ensures CMPL in sta ==> link.wire == old(link.wire).Deliver([LLO])
      ensures SentOne(old(link.calls), link.calls, [LLO], {CMPL, LOK}, sta, err)
    {
      var rc, reach := link.SendCommandBytes([LLO]);
      if !rc.Ok? {
        sta, err, ibsta := {ERR}, EBUS, {ERR};
        return;
      }
      assert [LLO][..reach] == [LLO];
      sta, err, ibsta := {CMPL, LOK}, NoError, {CMPL, LOK};
    }

    method InterfaceClear() returns (sta: set<Flag>, err: Iberr)
      requires Valid()
      modifies link, this`ibsta
      ensures Valid() && sta == ibsta && sta == {CMPL, CIC} && link.wire.ren == old(link.wire.ren)
      ensures exists rc :: link.calls == old(link.calls) + [ClearInterfaces(rc)] && err == NoError
                        && link.wire == if rc.Ok? then old(link.wire).InterfaceClear() else old(link.wire)
    {
      var rc := link.PulseInterfaceClear();
      assert link.calls == old(link.calls) + [ClearInterfaces(rc)];
      sta, err, ibsta := {CMPL, CIC}, NoError, {CMPL, CIC};
    }

    /** The transport's answer is ignored, so the line and the record agree afterwards
        exactly if the call went through or the line already stood as asked. */
    method RemoteEnable(enable: bool) returns (sta: set<Flag>, err: Iberr, ghost accepted: bool)
      requires Valid()
      modifies link, this`ibsta, this`renRequested
      ensures Valid() && sta == ibsta && renRequested == enable && err == NoError
      ensures sta == (if enable then {CMPL, REM} else {CMPL})
      ensures RenAgrees() <==> accepted || old(link.wire.ren) == enable
      ensures RenReliable() ==> accepted
      ensures exists rc :: link.calls == old(link.calls) + [Call.RemoteEnable(enable, rc)] && (accepted <==> rc.Ok?)
    {
      var rc := link.SetRemoteEnable(enable);
      accepted := rc.Ok?;
      renRequested := enable;
      sta, err, ibsta := {CMPL} + (if enable then {REM} else {}), NoError, {CMPL} + (if enable then {REM} else {});
    }

    method SetOnline(on: bool) returns (sta: set<Flag>)
      requires Valid()
      modifies link, this`ibsta, this`renRequested, this`online
      ensures Valid() && sta == ibsta && online == on && renRequested == on && old(link.calls) <= link.calls
      ensures RenReliable() ==> RenAgrees()
      ensures on && REM in sta ==> RenAgrees()
      ensures var d := link.calls[|old(link.calls)|..];
              if on then
                |d| == 3 && d[0].ClearInterfaces? && d[1].TakeControl? && d[2] == Call.RemoteEnable(true, d[2].rc)
                         && (CIC in sta <==> d[0].rc.Ok? && d[1].rc.Ok?) && (REM in sta <==> d[2].rc.Ok?)
              else |d| == 1 && d[0] == Call.RemoteEnable(false, d[0].rc) && sta == {CMPL}
    {
      if on {
        var ifcRc := link.PulseInterfaceClear();
        var tcRc := link.TakeControl();
        var renRc := link.SetRemoteEnable(true);
        renRequested, online := true, true;
        sta := {CMPL} + (if ifcRc.Ok? && tcRc.Ok? then {CIC} else {}) + (if renRc.Ok? then {REM} else {});
      } else {
        var _ := link.SetRemoteEnable(false);
        renRequested, online := false, false;
        sta := {CMPL};
      }
      ibsta := sta;
    }

    // ----- Serial poll -----

    /** Once the addressing got through, the teardown is sent on every path. If it did not,
        nothing more is sent: see PollModeAfterFailure for what that leaves behind. */
    method SerialPoll(h: int)
      returns (sta: set<Flag>, stb: byte, err: Iberr, ghost addressed: bool, ghost swept: bool, ghost reach: nat)
      requires Valid()
      modifies link, this`ibsta
      ensures Valid() && sta == ibsta && link.wire.ren == old(link.wire.ren)
      ensures if !IsOpen(h) || !online then
                !addressed && link.calls == old(link.calls) && err == (if IsOpen(h) then ENEB else EARG)
              else PollCalls(old(link.calls), link.calls, PollCall(boardPad, descriptors[h].Target()),
                             descriptors[h].timeoutUs, addressed)
      ensures addressed ==> Teardown(link.calls, swept) && (swept ==> Quiet(link.wire))
      ensures !addressed && IsOpen(h) && online ==>
        && err == EBUS && reach <= |PollCall(boardPad, descriptors[h].Target())|
        && link.wire == old(link.wire).Deliver(PollCall(boardPad, descriptors[h].Target())[..reach])
      ensures !addressed ==> sta == {ERR}
      ensures addressed ==> PollReport(link.calls, sta, stb, err)
    {
      stb, reach, addressed, swept := 0, 0, false, false;
      if !IsOpen(h) {
        sta, err, ibsta := {ERR}, EARG, {ERR};
        return;
      }
      if !online {
        sta, err, ibsta := {ERR}, ENEB, {ERR};
        return;
      }
      var rc;
      rc, reach := SendPollCall(descriptors[h].pad, descriptors[h].sad);
      if !rc.Ok? {
        sta, err, ibsta := {ERR}, EBUS, {ERR};
        return;
      }
      addressed := true;
      var data;
      rc, data, swept := TakeStatusByte(descriptors[h].timeoutUs);
      if !rc.Ok? || |data| == 0 {
        sta, err := if rc.TimedOut? then {ERR, TIMO} else {ERR}, if rc.TimedOut? then EABO else EBUS;
        ibsta := sta;
        return;
      }
      stb := data[0];
      sta, err := if stb / 0x40 % 2 == 1 then {CMPL, RQS} else {CMPL}, NoError;
      ibsta := sta;
    }

    method SendPollCall(pad: byte, sad: int) returns (rc: Rc, ghost reach: nat)
      requires link.wire.Valid()
      modifies link
      ensures var call := PollCall(boardPad, ProbeTarget(pad, sad));
              && reach <= |call| && link.wire == old(link.wire).Deliver(call[..reach]) && link.wire.Valid()
              && link.calls == old(link.calls) + [Commands(call, rc)]
    {
      var cmds: seq<byte> := [UNL, Mta(pad)];
      if sad >= 0 {
        cmds := cmds + [sad % 0x20 + SAD];
      }
      cmds := cmds + [Mla(boardPad), SPE];
      assert cmds == PollCall(boardPad, ProbeTarget(pad, sad));
      rc, reach := link.SendCommandBytes(cmds);
    }

    /** One byte, and then the teardown whatever came of it. */
    method TakeStatusByte(us: u32) returns (rc: Rc, data: seq<byte>, ghost swept: bool)
      requires link.wire.Valid()
      modifies link
      ensures link.wire.Valid() && link.wire.ren == old(link.wire.ren)
      ensures link.wire.board.addr == old(link.wire.board.addr)
      ensures |data| <= 1 && |link.calls| == |old(link.calls)| + 2 && link.calls[..|old(link.calls)|] == old(link.calls)
      ensures var c := link.calls[|old(link.calls)|]; IsStatusRead(c, us) && c.rc == rc && c.data == data
      ensures PolledByte(link.calls) == if rc.Ok? && |data| == 1 then Some(data[0]) else None
      ensures Teardown(link.calls, swept) && (swept ==> Quiet(link.wire))
    {
      var end;
      rc, data, end := link.ReadData(1, Terms(0, 0, us));
      ghost var mid := link.calls;
      swept := EndPoll();
      assert link.calls[..|mid|] == mid;
      assert link.calls[|old(link.calls)|] == mid[|old(link.calls)|];
    }

    method EndPoll() returns (ghost swept: bool)
      requires link.wire.Valid()
      modifies link
      ensures link.wire.Valid() && link.wire.ren == old(link.wire.ren)
      ensures link.wire.board.addr == old(link.wire.board.addr)
      ensures |link.calls| == |old(link.calls)| + 1 && link.calls[..|old(link.calls)|] == old(link.calls)
      ensures Teardown(link.calls, swept) && (swept ==> Quiet(link.wire))
    {
      var rc, reach := link.SendCommandBytes(POLL_END);
      swept := rc.Ok?;
      if swept {
        assert POLL_END[..reach] == POLL_END;
        PollEndQuiets(old(link.wire));
      }
    }

    /** Presence probe. The teardown runs whatever happened to the addressing and the read. */
    method SerialPollProbe(pad: byte, sad: int) returns (present: bool, ghost swept: bool)
      requires Valid() && -0x80 <= sad < 0x80
      modifies link
      ensures Valid() && link.wire.ren == old(link.wire.ren)
      ensures Teardown(link.calls, swept) && (swept ==> Quiet(link.wire))
      ensures old(link.calls) <= link.calls
      ensures ProbeCalls([], link.calls[|old(link.calls)|..], PollCall(boardPad, ProbeTarget(pad, sad)))
      ensures present <==> PolledByte(link.calls[|old(link.calls)|..]).Some?
    {
      present := false;
      var rc, _ := SendPollCall(pad, sad);
      if rc.Ok? {
        var rrc, data;
        rrc, data, swept := TakeStatusByte(PROBE_TIMEOUT);
        present := rrc.Ok? && |data| == 1;
      } else {
        swept := EndPoll();
      }
      ProbeOnly(old(link.calls), link.calls, PollCall(boardPad, ProbeTarget(pad, sad)));
    }

    /** Address a listener, release ATN and look at the lines; if they say nothing, poll. */
    method ListenerPresent(pad: byte, sad: int)
      returns (sta: set<Flag>, present: bool, err: Iberr, ghost delta: seq<Call>)
      requires Valid() && -0x80 <= sad < 0x80
      modifies link, this`ibsta
      ensures Valid() && sta == ibsta && sta == {CMPL} && err == NoError && link.wire.ren == old(link.wire.ren)
      ensures link.calls == old(link.calls) + delta && FoundListener(delta, ProbeTarget(pad, sad), boardPad, present)
    {
      var rc;
      rc, delta := CallListener(pad, sad);
      present := false;
      if rc.Ok? {
        ghost var more;
        present, more := JudgeLines(pad, sad);
        LinesJudged(delta, more, ProbeTarget(pad, sad), boardPad, present);
        Associative(old(link.calls), delta, more);
        delta := delta + more;
      }
      sta, err, ibsta := {CMPL}, NoError, {CMPL};
    }

    /** The listener is called and ATN released. */
    method CallListener(pad: byte, sad: int) returns (rc: Rc, ghost delta: seq<Call>)
      requires Valid()
      modifies link
      ensures Valid() && link.wire.ren == old(link.wire.ren) && link.calls == old(link.calls) + delta
      ensures 1 <= |delta| <= 2 && delta[0] == Commands(ListenCall(ProbeTarget(pad, sad)), delta[0].rc)
      ensures if delta[0].rc.Ok? then |delta| == 2 && delta[1] == Call.ReleaseAtn(rc)
              else |delta| == 1 && rc == delta[0].rc
    {
      var cmds: seq<byte> := [UNL, UNT, Mla(pad)];
      if sad >= 0 {
        cmds := cmds + [sad % 0x20 + SAD];
      }
      assert cmds == ListenCall(ProbeTarget(pad, sad));
      var called, _ := link.SendCommandBytes(cmds);
      rc := called;
      delta := [Commands(cmds, rc)];
      if rc.Ok? {
        rc := link.ReleaseAtn();
        delta := delta + [Call.ReleaseAtn(rc)];
      }
    }

    method JudgeLines(pad: byte, sad: int) returns (present: bool, ghost delta: seq<Call>)
      requires Valid() && -0x80 <= sad < 0x80
      modifies link
      ensures Valid() && link.wire.ren == old(link.wire.ren)
      ensures link.calls == old(link.calls) + delta && JudgedLines(delta, ProbeTarget(pad, sad), boardPad, present)
    {
      var rc, lines := link.ReadBusLines();
      delta := [ReadLines(rc, lines)];
      if rc.Ok? && lines / 0x100 % 0x100 != 0 {
        return lines / 2 % 2 == 1 && lines / 0x200 % 2 == 1, delta;
      }
      ghost var before := link.calls;
      var found, _ := SerialPollProbe(pad, sad);
      ghost var more := link.calls[|before|..];
      assert (delta + more)[1..] == more;
      return found, delta + more;
    }

    // ----- Whole runs -----

    /** Whatever clients do, in whatever order: if REN calls succeed, the REN line is what
        they last asked for, across every soft reset that recovery performs on the way. */
    method Run(ops: seq<Op>)
      requires Valid()
      modifies this, link, descriptors
      ensures Valid()
      ensures RenReliable() && old(RenAgrees()) ==> RenAgrees()
    {
      for i := 0 to |ops|
        invariant Valid()
        invariant RenReliable() && old(RenAgrees()) ==> RenAgrees()
      {
        match ops[i] {
          case Open(pad, sad, eot) => var _, _, _ := OpenDescriptor(pad, sad, false, 0, 0, 0, eot);
          case Close(h) => var _, _ := CloseDescriptor(h);
          case Set(h, key, value) => var _, _ := Configure(h, key, value);
          case Online(on) => var _ := SetOnline(on);
          case Ren(on) => var _, _, _ := RemoteEnable(on);
          case Ifc => var _, _ := InterfaceClear();
          case Send(h, buf) => var _, _, _, _, _ := Write(h, buf, true);
          case Receive(h, n) => var _, _, _, _, _ := Read(h, n);
          case Clear(h) => var _, _ := DeviceClear(h);
          case Poke(h) => var _, _ := Trigger(h);
          case Local(h) => var _, _ := GoToLocal(h);
          case Lockout => var _, _ := LocalLockout();
          case Raw(cmds) => var _, _, _ := SendCommands(cmds);
          case Poll(h) => var _, _, _, _, _, _ := SerialPoll(h);
          case Probe(pad, sad) => var _, _, _, _ := ListenerPresent(pad, sad);
          case Reinit => var _, _ := RecoverBus(None);
        }
      }
    }
  }

  datatype Op =
    | Open(pad: byte, sad: SmallInt, eot: bool) | Close(h: int) | Set(h: int, key: Key, value: int)
    | Online(on: bool) | Ren(on: bool) | Ifc
    | Send(h: int, buf: seq<byte>) | Receive(h: int, count: nat)
    | Clear(h: int) | Poke(h: int) | Local(h: int) | Lockout | Raw(cmds: seq<byte>)
    | Poll(h: int) | Probe(pad: byte, sad: SmallInt) | Reinit

  type SmallInt = n: int | -0x80 <= n < 0x80
}
