/**
 What the adapter makes of the traffic it sees. `Engine` is the firmware's transfer engine:
 armed by an 8-byte header, fed by bulk transfers. `Chip` is the NEC7210 core behind the
 register requests, with the RFD holdoff that a received byte leaves behind.
 */
module Trace {
  import opened Bytes
  import opened Usb

  const REQ_STATUS: byte := 0xB0
  const REQ_CMDBLOCK: byte := 0xB1
  const REQ_BEGIN_CMD: byte := 0xB3
  const REQ_GTS: byte := 0xB7
  const REQ_BEGIN_WRITE: byte := 0xB9
  const REQ_BEGIN_READ: byte := 0xBA
  const REQ_ABORT: byte := 0xBB
  const REQ_REG: byte := 0xBD

  const STATE_BUSY: byte := 1
  const STATE_DONE: byte := 2
  const STATUS_MIN_READ := 7

  // Register numbers; CDOR and DIR are the two sides of register 0.
  const REG_DATA := 0
  const REG_ISR1 := 1
  const REG_ISR2 := 2
  const REG_ADMR := 4
  const REG_AUXMR := 5
  const REG_ADR := 6

  const AUX_PON: byte := 0x00
  const AUX_CHIP_RESET: byte := 0x02
  const AUX_FH: byte := 0x03
  const AUX_SEOI: byte := 0x06
  const AUX_GTS: byte := 0x10
  const AUX_TCA: byte := 0x11
  const AUX_TCS: byte := 0x12

  // Address modes: neither talker nor listener, talker, listener.
  const ADMR_TRM: byte := 0x30
  const ADMR_TON: byte := 0xB0
  const ADMR_LON: byte := 0x70

  const ISR1_END := 0x10

  /** Is the single-bit `mask` set in `v`? */
  predicate HasBit(v: nat, mask: nat)
    requires mask > 0
  {
    v / mask % 2 == 1
  }

  datatype Engine = Engine(armed: nat, eoi: bool, cmdArmed: nat, data: seq<BusByte>, cmds: seq<byte>,
                           polls: nat, fetches: nat, emptyFetches: nat, fetched: seq<byte>,
                           readPending: bool, accepted: seq<byte>)
  {
    /** Bulk bytes go out in order, EOI with the last byte of the armed length if armed so. */
    function Put(bytes: seq<byte>): Engine {
      var k := Min(|bytes|, armed);
      this.(data := data + seq(k, i requires 0 <= i < k => BusByte(bytes[i], eoi && i == armed - 1)),
            armed := armed - k)
    }

    function PutCmds(bytes: seq<byte>): Engine {
      var k := Min(|bytes|, cmdArmed);
      this.(cmds := cmds + bytes[..k], cmdArmed := cmdArmed - k)
    }

    /** The last status block long enough for a read decides: DONE ends the read. */
    function Status(got: seq<byte>, ok: bool): Engine {
      var e := this.(polls := polls + 1);
      if !ok || |got| < STATUS_MIN_READ then e
      else e.(accepted := got, readPending := readPending && got[0] != STATE_DONE)
    }

    function Step(ev: Event): Engine {
      match ev
      case ControlOut(request, wValue, _, hdr, ok) =>
        if request == REQ_ABORT then this.(armed := 0, cmdArmed := 0, readPending := false)
        else if !ok || |hdr| != 8 then this
        else if request == REQ_BEGIN_WRITE then this.(armed := Value32(hdr[4..]), eoi := wValue / 0x100 % 2 == 1)
        else if request == REQ_BEGIN_CMD then this.(cmdArmed := Value32(hdr[4..]))
        else if request == REQ_BEGIN_READ then this.(readPending := true)
        else this
      case ControlIn(request, _, _, got, ok) =>
        if request == REQ_STATUS then Status(got, ok) else this
      case BulkOut(pipe, _, _, bytes, _) =>
        if pipe.DataOut? then Put(bytes) else if pipe.CmdOut? then PutCmds(bytes) else this
      case BulkIn(_, _, _, got, ok) =>
        this.(fetches := fetches + 1, fetched := fetched + got,
              emptyFetches := if ok && got == [] then emptyFetches + 1 else emptyFetches)
      case ClearStall(_) => this
    }

    predicate SameOutput(e: Engine) {
      data == e.data && cmds == e.cmds && fetched == e.fetched && fetches == e.fetches && emptyFetches == e.emptyFetches
    }
  }

  ghost function EngineAfter(log: seq<Event>): Engine {
    if log == [] then Engine(0, false, 0, [], [], 0, 0, 0, [], false, [])
    else EngineAfter(log[..|log| - 1]).Step(log[|log| - 1])
  }

  /** The chip's RFD holdoff, twice. `recorded` is the debt as the transport keeps it: a byte
      was received, and neither a finish-handshake was sent nor a bring-up completed since.
      `held` is the debt as the chip has it: the bring-up programs the chip to hold off on END,
      so only a byte that came with END incurs it, whether or not the read of that byte got its
      reply through, and only a finish-handshake, a chip reset or a power-on release that the
      adapter accepted settles it.
      `role` is the address mode last accepted: command bytes count as sent while it is neither
      talker nor listener, data bytes as sent by a talker and as received by a listener.
      `disciplined`: no finish-handshake was sent and no command byte written against the
      record. `clean`: the chip took no command byte while it held off. `honest`: it was given
      no finish-handshake while it did not. */
  datatype Chip = Chip(recorded: bool, held: bool, command: bool, role: byte, eoiLatched: bool, sent: seq<BusByte>,
                       cmds: seq<byte>, received: seq<byte>, disciplined: bool, clean: bool, honest: bool)
  {
    predicate SameButRole(c: Chip) {
      this.(role := c.role) == c
    }

    /** The core has at most stopped driving commands. */
    predicate AtMostReleased(c: Chip) {
      this == c.(command := command) && (command ==> c.command)
    }

    predicate SameHoldoff(c: Chip) {
      && recorded == c.recorded && held == c.held && received == c.received && cmds == c.cmds
      && disciplined == c.disciplined && clean == c.clean && honest == c.honest
    }

    predicate SameData(c: Chip) {
      sent == c.sent && eoiLatched == c.eoiLatched
    }

    function Finish(ok: bool): Chip {
      this.(disciplined := disciplined && recorded, honest := honest && (held || !ok),
            recorded := false, held := held && !ok)
    }

    function Aux(v: byte, ok: bool): Chip {
      if v == AUX_FH then Finish(ok)
      else if !ok then this
      else if v == AUX_TCA || v == AUX_TCS then this.(command := true)
      else if v == AUX_GTS then this.(command := false)
      else if v == AUX_SEOI then this.(eoiLatched := true)
      else if v == AUX_PON then this.(recorded := false, held := false)
      else this
    }

    function Out(v: byte, ok: bool): Chip {
      if command then
        this.(disciplined := disciplined && !recorded,
              clean := clean && !(held && ok), cmds := if ok && role == ADMR_TRM then cmds + [v] else cmds)
      else if ok && role == ADMR_TON then this.(sent := sent + [BusByte(v, eoiLatched)], eoiLatched := false)
      else this
    }

    /** A read of the data register: what it brought, and whether that byte came with END. */
    function Receive(got: seq<byte>, end: bool): Chip {
      this.(received := if role == ADMR_LON then received + got else received,
            recorded := recorded || got != [], held := held || end)
    }

    function Step(ev: Event, end: bool): Chip {
      match ev
      case ControlOut(request, reg, _, v, ok) =>
        if IsReset(ev) then this.(held := false)
        else if TakesControl(ev) then this.(command := true)
        else if GoesToStandby(ev) then this.(command := false)
        else if request != REQ_REG || |v| != 1 then this
        else if reg == REG_AUXMR then Aux(v[0], ok)
        else if reg == REG_DATA then Out(v[0], ok)
        else if reg == REG_ADMR && ok then this.(role := v[0])
        else this
      case ControlIn(_, _, _, got, _) =>
        if IsRead(ev, REG_DATA) then Receive(if IsReceipt(ev) then got else [], end) else this
      case _ => this
    }
  }

  /** `ended` says of every event that reads the data register whether its byte came with END. */
  ghost function ChipAfter(log: seq<Event>, ended: nat -> bool): Chip {
    if log == [] then Chip(false, false, false, 0, false, [], [], [], true, true, true)
    else ChipAfter(log[..|log| - 1], ended).Step(log[|log| - 1], ended(|log| - 1))
  }

  // ----- Kinds of events -----

  predicate IsFinish(ev: Event) {
    ev.ControlOut? && ev.request == REQ_REG && ev.wValue == REG_AUXMR && |ev.data| == 1 && ev.data[0] == AUX_FH
  }

  predicate IsReceipt(ev: Event) {
    ev.ControlIn? && ev.request == REQ_REG && ev.wValue == REG_DATA && ev.ok && |ev.got| == 1
  }

  /** A command block that the adapter accepted and that begins with a chip reset. */
  predicate IsReset(ev: Event) {
    && ev.ControlOut? && ev.request == REQ_CMDBLOCK && ev.ok
    && |ev.data| >= 2 && ev.data[0] as int == REG_AUXMR && ev.data[1] == AUX_CHIP_RESET
  }

  /** A command block of the one auxiliary command that takes control. */
  predicate TakesControl(ev: Event) {
    && ev.ControlOut? && ev.request == REQ_CMDBLOCK && ev.ok && |ev.data| == 2
    && ev.data[0] as int == REG_AUXMR && (ev.data[1] == AUX_TCA || ev.data[1] == AUX_TCS)
  }

  predicate GoesToStandby(ev: Event) {
    ev.ControlOut? && ev.request == REQ_GTS && ev.ok
  }

  predicate IsPowerOn(ev: Event) {
    && ev.ControlOut? && ev.request == REQ_REG && ev.wValue == REG_AUXMR
    && |ev.data| == 1 && ev.data[0] == AUX_PON && ev.ok
  }

  predicate IsDataWrite(ev: Event) {
    ev.ControlOut? && ev.request == REQ_REG && ev.wValue == REG_DATA && |ev.data| == 1
  }

  predicate IsRead(ev: Event, reg: nat) {
    ev.ControlIn? && ev.request == REQ_REG && ev.wValue == reg
  }

  // ----- What a register read can rely on -----

  /** No register `reg` was read by the events from `from` up to `to`. */
  predicate Unread(log: seq<Event>, from: nat, to: nat, reg: nat)
    requires to <= |log|
  {
    forall k :: from <= k < to ==> !IsRead(log[k], reg)
  }

  /** A read of one byte that came back with the bit set. */
  predicate ReadsBit(ev: Event, reg: nat, mask: nat)
    requires mask > 0
  {
    IsRead(ev, reg) && ev.ok && |ev.got| == 1 && HasBit(ev.got[0], mask)
  }

  /** END was latched already at the first look at ISR1 from event `from` on. */
  ghost predicate StartsLatched(log: seq<Event>, from: nat) {
    exists i :: from <= i < |log| && ReadsBit(log[i], REG_ISR1, ISR1_END) && Unread(log, from, i, REG_ISR1)
  }

  /** The first look decides. */
  lemma FirstLook(log: seq<Event>, from: nat, at: nat)
    requires from <= at < |log| && IsRead(log[at], REG_ISR1) && Unread(log, from, at, REG_ISR1)
    ensures StartsLatched(log, from) <==> ReadsBit(log[at], REG_ISR1, ISR1_END)
  {
    if StartsLatched(log, from) {
      var i :| from <= i < |log| && ReadsBit(log[i], REG_ISR1, ISR1_END) && Unread(log, from, i, REG_ISR1);
      assert !(at < i) && !(i < at);
    }
  }

  /** All that happened since `before` are reads of `reg`. */
  predicate OnlyReads(before: seq<Event>, log: seq<Event>, reg: nat) {
    before <= log && forall k :: |before| <= k < |log| ==> IsRead(log[k], reg)
  }

  predicate NoReceipts(log: seq<Event>, from: nat) {
    forall k :: from <= k < |log| ==> !IsReceipt(log[k])
  }

  /** Some read of the data register from event `from` on met a byte that came with END. */
  ghost predicate EndedSince(log: seq<Event>, ended: nat -> bool, from: nat) {
    exists k :: from <= k < |log| && IsRead(log[k], REG_DATA) && ended(k)
  }

  lemma EndedNext(log: seq<Event>, more: seq<Event>, ended: nat -> bool, from: nat)
    requires from <= |log| && log <= more
    ensures EndedSince(more, ended, from) <==> EndedSince(log, ended, from) || EndedSince(more, ended, |log|)
  {
    if k :| from <= k < |log| && IsRead(log[k], REG_DATA) && ended(k) {
      assert more[k] == log[k];
    }
    if k :| from <= k < |more| && IsRead(more[k], REG_DATA) && ended(k) {
      assert k < |log| ==> more[k] == log[k];
    }
  }

  predicate NoDataReads(log: seq<Event>, from: nat) {
    forall k :: from <= k < |log| ==> !IsRead(log[k], REG_DATA)
  }

  lemma NotEnded(log: seq<Event>, ended: nat -> bool, from: nat)
    requires NoDataReads(log, from)
    ensures !EndedSince(log, ended, from)
  {
  }

  /** The reply to a read of one byte shows the bit as wanted. */
  predicate Shows(r: Reply, mask: nat, want: bool)
    requires mask > 0
  {
    Yields(r) && HasBit(r.data[0], mask) == want
  }

  /** The last `n` events are answered reads of `reg` in which the bit is not as wanted. */
  predicate Starved(log: seq<Event>, reg: nat, mask: nat, want: bool, n: nat)
    requires mask > 0
  {
    n <= |log| && forall k :: |log| - n <= k < |log| ==> Unanswered(log[k], reg, mask, want)
  }

  predicate Unanswered(ev: Event, reg: nat, mask: nat, want: bool)
    requires mask > 0
  {
    IsRead(ev, reg) && ev.ok && |ev.got| == 1 && HasBit(ev.got[0], mask) != want
  }

  // ----- Requests that were not carried out -----

  predicate RefusedWrite(log: seq<Event>) {
    log != [] && log[|log| - 1].ControlOut? && !log[|log| - 1].ok && !IsFinish(log[|log| - 1])
  }

  predicate RefusedRead(log: seq<Event>, reg: nat) {
    log != [] && IsRead(log[|log| - 1], reg) && (!log[|log| - 1].ok || log[|log| - 1].got == [])
  }

  /** The bit waited for did not show: a read of `reg` failed, or `n` of them lacked it. */
  predicate Unseen(log: seq<Event>, reg: nat, mask: nat, want: bool, n: nat)
    requires mask > 0
  {
    RefusedRead(log, reg) || Starved(log, reg, mask, want, n)
  }

  lemma OneMore(log: seq<Event>, ev: Event, ended: nat -> bool)
    ensures EngineAfter(log + [ev]) == EngineAfter(log).Step(ev)
    ensures ChipAfter(log + [ev], ended) == ChipAfter(log, ended).Step(ev, ended(|log|))
  {
    assert (log + [ev])[..|log|] == log;
  }

  lemma ChipStep(log: seq<Event>, ended: nat -> bool, n: nat)
    requires n < |log|
    ensures ChipAfter(log[..n + 1], ended) == ChipAfter(log[..n], ended).Step(log[n], ended(n))
  {
    assert log[..n + 1][..n] == log[..n];
  }

  // ----- The record and the chip, read off the log -----

  type Mark = (nat, Event) -> bool

  /** A byte was received. */
  function Receipts(): Mark {
    (i: nat, ev: Event) => IsReceipt(ev)
  }

  /** A byte that came with END was read, or would have been had the reply got through. */
  function EndBytes(ended: nat -> bool): Mark {
    (i: nat, ev: Event) => IsRead(ev, REG_DATA) && ended(i)
  }

  /** What clears the record: a finish-handshake sent, or an accepted power-on release. */
  predicate Settles(ev: Event) {
    IsFinish(ev) || IsPowerOn(ev)
  }

  /** What frees the chip: any of the three, if the adapter accepted it. */
  predicate Frees(ev: Event) {
    Discharges(ev) || IsReset(ev)
  }

  /** What frees the chip in the ordinary way. */
  predicate Discharges(ev: Event) {
    (IsFinish(ev) && ev.ok) || IsPowerOn(ev)
  }

  predicate NoneIn(log: seq<Event>, from: nat, to: nat, p: Event -> bool)
    requires to <= |log|
  {
    forall k :: from <= k < to ==> !p(log[k])
  }

  /** Among the first `n` events one that is marked, and nothing of the kind `p` since. */
  ghost predicate Outstanding(log: seq<Event>, n: nat, mark: Mark, p: Event -> bool)
    requires n <= |log|
  {
    exists j :: 0 <= j < n && mark(j, log[j]) && NoneIn(log, j + 1, n, p)
  }

  lemma OutstandingNext(log: seq<Event>, n: nat, mark: Mark, p: Event -> bool)
    requires n < |log|
    ensures Outstanding(log, n + 1, mark, p) <==> mark(n, log[n]) || (Outstanding(log, n, mark, p) && !p(log[n]))
  {
    if mark(n, log[n]) {
      assert NoneIn(log, n + 1, n + 1, p);
    }
    if Outstanding(log, n, mark, p) && !p(log[n]) {
      var j :| 0 <= j < n && mark(j, log[j]) && NoneIn(log, j + 1, n, p);
      assert NoneIn(log, j + 1, n + 1, p);
    }
    if Outstanding(log, n + 1, mark, p) && !mark(n, log[n]) {
      var j :| 0 <= j < n + 1 && mark(j, log[j]) && NoneIn(log, j + 1, n + 1, p);
      assert j < n && NoneIn(log, j + 1, n, p);
    }
  }

  lemma AuxCases(c: Chip, v: byte, ok: bool)
    ensures var d := c.Aux(v, ok);
            && d.recorded == (c.recorded && v != AUX_FH && !(v == AUX_PON && ok))
            && d.held == (c.held && !((v == AUX_FH || v == AUX_PON) && ok))
            && d.clean == c.clean && d.disciplined == (c.disciplined && (v == AUX_FH ==> c.recorded))
            && d.honest == (c.honest && (v == AUX_FH && ok ==> c.held))
  {
    if v == AUX_FH {
      assert c.Aux(v, ok) == c.Finish(ok);
    } else {
      OtherAux(c, v, ok);
    }
  }

  lemma OtherAux(c: Chip, v: byte, ok: bool)
    requires v != AUX_FH
    ensures var d := c.Aux(v, ok);
            && d.clean == c.clean && d.disciplined == c.disciplined && d.honest == c.honest
            && if v == AUX_PON && ok then !d.recorded && !d.held else d.recorded == c.recorded && d.held == c.held
  {
  }

  lemma OutCases(c: Chip, v: byte, ok: bool)
    ensures var d := c.Out(v, ok);
            && d.recorded == c.recorded && d.held == c.held && d.clean == (c.clean && !(c.command && ok && c.held))
            && d.disciplined == (c.disciplined && (c.command ==> !c.recorded)) && d.honest == c.honest
  {
  }

  /** What one event does to the record and the chip. */
  predicate Moves(c: Chip, d: Chip, ev: Event, end: bool) {
    && (d.recorded <==> IsReceipt(ev) || (c.recorded && !Settles(ev)))
    && (d.held <==> (IsRead(ev, REG_DATA) && end) || (c.held && !Frees(ev)))
    && (d.clean <==> c.clean && !(IsDataWrite(ev) && ev.ok && c.command && c.held))
    && (d.honest <==> c.honest && !(IsFinish(ev) && ev.ok && !c.held))
    && (d.disciplined <==>
          c.disciplined && (IsFinish(ev) ==> c.recorded) && (IsDataWrite(ev) && c.command ==> !c.recorded))
  }

  lemma AuxStep(c: Chip, ev: Event, end: bool)
    requires ev.ControlOut? && ev.request == REQ_REG && |ev.data| == 1 && ev.wValue == REG_AUXMR
    ensures Moves(c, c.Step(ev, end), ev, end)
  {
    AuxCases(c, ev.data[0], ev.ok);
    assert c.Step(ev, end) == c.Aux(ev.data[0], ev.ok);
  }

  lemma OutStep(c: Chip, ev: Event, end: bool)
    requires ev.ControlOut? && ev.request == REQ_REG && |ev.data| == 1 && ev.wValue == REG_DATA
    ensures Moves(c, c.Step(ev, end), ev, end)
  {
    OutCases(c, ev.data[0], ev.ok);
    assert c.Step(ev, end) == c.Out(ev.data[0], ev.ok);
  }

  lemma SilentStep(c: Chip, ev: Event, end: bool)
    requires ev.ControlOut? && ev.request == REQ_REG
    requires |ev.data| != 1 || (ev.wValue != REG_AUXMR && ev.wValue != REG_DATA)
    ensures Moves(c, c.Step(ev, end), ev, end)
  {
    assert c.Step(ev, end) ==
           if |ev.data| == 1 && ev.wValue == REG_ADMR && ev.ok then c.(role := ev.data[0]) else c;
  }

  lemma RegisterStep(c: Chip, ev: Event, end: bool)
    requires ev.ControlOut? && ev.request == REQ_REG
    ensures Moves(c, c.Step(ev, end), ev, end)
  {
    if |ev.data| == 1 && ev.wValue == REG_AUXMR {
      AuxStep(c, ev, end);
    } else if |ev.data| == 1 && ev.wValue == REG_DATA {
      OutStep(c, ev, end);
    } else {
      SilentStep(c, ev, end);
    }
  }

  lemma ReadStep(c: Chip, ev: Event, end: bool)
    requires ev.ControlIn?
    ensures Moves(c, c.Step(ev, end), ev, end)
  {
    if IsRead(ev, REG_DATA) {
      assert c.Step(ev, end) == c.Receive(if IsReceipt(ev) then ev.got else [], end);
    } else {
      assert c.Step(ev, end) == c;
    }
  }

  lemma OtherStep(c: Chip, ev: Event, end: bool)
    requires !ev.ControlIn? && (ev.ControlOut? ==> ev.request != REQ_REG)
    ensures Moves(c, c.Step(ev, end), ev, end)
  {
    var d := c.Step(ev, end);
    assert d == (if IsReset(ev) then c.(held := false)
                 else if TakesControl(ev) then c.(command := true)
                 else if GoesToStandby(ev) then c.(command := false) else c);
  }

  lemma OneStep(c: Chip, ev: Event, end: bool)
    ensures Moves(c, c.Step(ev, end), ev, end)
  {
    if ev.ControlOut? && ev.request == REQ_REG {
      RegisterStep(c, ev, end);
    } else if ev.ControlIn? {
      ReadStep(c, ev, end);
    } else {
      OtherStep(c, ev, end);
    }
  }

  /** The record is what the log says it is. */
  lemma {:induction false} RecordedOnLog(log: seq<Event>, ended: nat -> bool, n: nat)
    requires n <= |log|
    ensures ChipAfter(log[..n], ended).recorded <==> Outstanding(log, n, Receipts(), Settles)
  {
    if n > 0 {
      RecordedOnLog(log, ended, n - 1);
      ChipStep(log, ended, n - 1);
      OneStep(ChipAfter(log[..n - 1], ended), log[n - 1], ended(n - 1));
      OutstandingNext(log, n - 1, Receipts(), Settles);
    }
  }

  /** And so is the chip's own holdoff. */
  lemma {:induction false} HeldOnLog(log: seq<Event>, ended: nat -> bool, n: nat)
    requires n <= |log|
    ensures ChipAfter(log[..n], ended).held <==> Outstanding(log, n, EndBytes(ended), Frees)
  {
    if n > 0 {
      HeldOnLog(log, ended, n - 1);
      ChipStep(log, ended, n - 1);
      OneStep(ChipAfter(log[..n - 1], ended), log[n - 1], ended(n - 1));
      OutstandingNext(log, n - 1, EndBytes(ended), Frees);
    }
  }

  /** The log has kept to the record so far. */
  ghost predicate Disciplined(log: seq<Event>, ended: nat -> bool) {
    ChipAfter(log, ended).disciplined
  }

  lemma {:induction false} DisciplineBefore(log: seq<Event>, ended: nat -> bool, i: nat, n: nat)
    requires i < n <= |log| && Disciplined(log[..n], ended)
    ensures var c := ChipAfter(log[..i], ended);
            && c.disciplined && (IsFinish(log[i]) ==> c.recorded) && (IsDataWrite(log[i]) && c.command ==> !c.recorded)
  {
    ChipStep(log, ended, n - 1);
    OneStep(ChipAfter(log[..n - 1], ended), log[n - 1], ended(n - 1));
    if i < n - 1 {
      DisciplineBefore(log, ended, i, n - 1);
    }
  }

  // ----- The discipline -----

  ghost predicate StandsSince(log: seq<Event>, end: nat, j: int)
    requires end <= |log|
  {
    0 <= j < end && IsReceipt(log[j]) && forall k :: j < k < end ==> !IsFinish(log[k])
  }

  /** A byte received at some point before `end`, and no finish-handshake since. */
  ghost predicate ReceiptStands(log: seq<Event>, end: nat)
    requires end <= |log|
  {
    exists j :: StandsSince(log, end, j)
  }

  /** Every finish-handshake follows a received byte of its own. */
  lemma DisciplineOnLog(log: seq<Event>, ended: nat -> bool, i: nat)
    requires Disciplined(log, ended) && i < |log| && IsFinish(log[i])
    ensures ReceiptStands(log, i)
  {
    assert log[..|log|] == log;
    DisciplineBefore(log, ended, i, |log|);
    RecordedOnLog(log, ended, i);
    var j :| 0 <= j < i && Receipts()(j, log[j]) && NoneIn(log, j + 1, i, Settles);
    forall k | j < k < i
      ensures !IsFinish(log[k])
    {
      assert !Settles(log[k]);
    }
    assert StandsSince(log, i, j);
  }

  /** Its own: between two finish-handshakes there is another received byte. */
  lemma ReceiptsAreDistinct(log: seq<Event>, ended: nat -> bool, i: nat, j: nat)
    requires Disciplined(log, ended) && i < j < |log| && IsFinish(log[i]) && IsFinish(log[j])
    ensures exists k :: i < k < j && IsReceipt(log[k])
  {
    DisciplineOnLog(log, ended, j);
    ReceiptBetween(log, i, j);
  }

  lemma ReceiptBetween(log: seq<Event>, i: nat, j: nat)
    requires i < j <= |log| && IsFinish(log[i]) && ReceiptStands(log, j)
    ensures exists k :: i < k < j && IsReceipt(log[k])
  {
    var k :| StandsSince(log, j, k);
    assert k != i && !(k < i);
  }

  /** While the core drives commands, no byte goes out until every byte received before it
      has been taken off the record. */
  lemma CommandsOnLog(log: seq<Event>, ended: nat -> bool, i: nat, j: nat)
    requires Disciplined(log, ended) && j < i < |log|
    requires IsDataWrite(log[i]) && ChipAfter(log[..i], ended).command && IsReceipt(log[j])
    ensures exists k :: j < k < i && Settles(log[k])
  {
    assert log[..|log|] == log;
    DisciplineBefore(log, ended, i, |log|);
    RecordedOnLog(log, ended, i);
    assert Receipts()(j, log[j]);
    assert !NoneIn(log, j + 1, i, Settles);
  }

  // ----- Where the record and the chip part -----

  /** The byte read by event `j` came with END, and nothing freed the chip up to event `i`. */
  ghost predicate HoldsSince(log: seq<Event>, ended: nat -> bool, j: nat, i: nat)
    requires j < i <= |log|
  {
    IsRead(log[j], REG_DATA) && ended(j) && NoneIn(log, j + 1, i, Frees)
  }

  /** The holdoff of an END byte that the record does not show any more, because the
      finish-handshake sent for it was refused, or never did, because the reply to the read of
      the byte was lost. */
  ghost predicate HeldUnrecorded(log: seq<Event>, ended: nat -> bool, i: nat)
    requires i <= |log|
  {
    exists j :: 0 <= j < i && HoldsSince(log, ended, j, i) && (!IsReceipt(log[j]) || FinishRefused(log, j, i))
  }

  ghost predicate FinishRefused(log: seq<Event>, j: nat, i: nat)
    requires i <= |log|
  {
    exists f :: j < f < i && IsFinish(log[f]) && !log[f].ok
  }

  lemma UnrecordedIsLost(log: seq<Event>, ended: nat -> bool, i: nat)
    requires i <= |log| && !Outstanding(log, i, Receipts(), Settles)
    ensures Outstanding(log, i, EndBytes(ended), Frees) <==> HeldUnrecorded(log, ended, i)
  {
    if HeldUnrecorded(log, ended, i) {
      var j :| 0 <= j < i && HoldsSince(log, ended, j, i);
      assert EndBytes(ended)(j, log[j]);
    }
    if Outstanding(log, i, EndBytes(ended), Frees) {
      var j :| 0 <= j < i && EndBytes(ended)(j, log[j]) && NoneIn(log, j + 1, i, Frees);
      assert HoldsSince(log, ended, j, i);
      if IsReceipt(log[j]) {
        assert Receipts()(j, log[j]) && !NoneIn(log, j + 1, i, Settles);
        var f :| j + 1 <= f < i && Settles(log[f]);
        assert !Frees(log[f]);
        assert FinishRefused(log, j, i);
      }
    }
  }

  /** Exactly when a command byte meets a chip that holds off. */
  lemma ClampedCommand(log: seq<Event>, ended: nat -> bool, i: nat)
    requires Disciplined(log, ended) && i < |log| && IsDataWrite(log[i]) && ChipAfter(log[..i], ended).command
    ensures ChipAfter(log[..i], ended).held <==> HeldUnrecorded(log, ended, i)
  {
    assert log[..|log|] == log;
    DisciplineBefore(log, ended, i, |log|);
    RecordedOnLog(log, ended, i);
    HeldOnLog(log, ended, i);
    UnrecordedIsLost(log, ended, i);
  }

  /** No byte since the last accepted finish-handshake or power-on release came with END. */
  ghost predicate NoEndSince(log: seq<Event>, ended: nat -> bool, i: nat)
    requires i <= |log|
  {
    forall j :: 0 <= j < i && IsRead(log[j], REG_DATA) && ended(j) ==> !NoneIn(log, j + 1, i, Discharges)
  }

  /** A chip reset that the adapter accepted, and no byte with END since. */
  ghost predicate ResetStands(log: seq<Event>, ended: nat -> bool, i: nat)
    requires i <= |log|
  {
    exists k :: 0 <= k < i && ResetAt(log, ended, k, i)
  }

  ghost predicate ResetAt(log: seq<Event>, ended: nat -> bool, k: nat, i: nat)
    requires k < i <= |log|
  {
    IsReset(log[k]) && forall j :: k < j < i ==> !(IsRead(log[j], REG_DATA) && ended(j))
  }

  /** Exactly when a finish-handshake meets a chip that does not hold off. In a disciplined run
      it always has a received byte to its name, but that byte need not have come with END: a
      read that ended on its count records a holdoff that the chip never had. */
  lemma SpuriousFinish(log: seq<Event>, ended: nat -> bool, i: nat)
    requires i < |log| && IsFinish(log[i])
    ensures !ChipAfter(log[..i], ended).held <==> NoEndSince(log, ended, i) || ResetStands(log, ended, i)
  {
    HeldOnLog(log, ended, i);
    if NoEndSince(log, ended, i) || ResetStands(log, ended, i) {
      forall j | 0 <= j < i && EndBytes(ended)(j, log[j])
        ensures !NoneIn(log, j + 1, i, Frees)
      {
        FreedByEither(log, ended, j, i);
      }
    } else {
      EndStands(log, ended, i);
    }
  }

  lemma FreedByEither(log: seq<Event>, ended: nat -> bool, j: nat, i: nat)
    requires j < i <= |log| && IsRead(log[j], REG_DATA) && ended(j)
    requires NoEndSince(log, ended, i) || ResetStands(log, ended, i)
    ensures !NoneIn(log, j + 1, i, Frees)
  {
    if ResetStands(log, ended, i) {
      var k :| 0 <= k < i && ResetAt(log, ended, k, i);
      assert j < k && Frees(log[k]);
    } else {
      var k :| j + 1 <= k < i && Discharges(log[k]);
      assert Frees(log[k]);
    }
  }

  /** The END byte that nothing has freed is the last one since the last reset. */
  lemma EndStands(log: seq<Event>, ended: nat -> bool, i: nat)
    requires i <= |log| && !NoEndSince(log, ended, i) && !ResetStands(log, ended, i)
    ensures Outstanding(log, i, EndBytes(ended), Frees)
  {
    var j :| 0 <= j < i && IsRead(log[j], REG_DATA) && ended(j) && NoneIn(log, j + 1, i, Discharges);
    var l := LastEnd(log, ended, j, i);
    assert EndBytes(ended)(l, log[l]);
    forall k | l + 1 <= k < i
      ensures !Frees(log[k])
    {
      assert !Discharges(log[k]);
      assert !ResetAt(log, ended, k, i);
    }
    assert NoneIn(log, l + 1, i, Frees);
  }

  lemma LastEnd(log: seq<Event>, ended: nat -> bool, j: nat, i: nat) returns (l: nat)
    requires j < i <= |log| && IsRead(log[j], REG_DATA) && ended(j)
    ensures j <= l < i && IsRead(log[l], REG_DATA) && ended(l)
    ensures forall k :: l < k < i ==> !(IsRead(log[k], REG_DATA) && ended(k))
    decreases i - j
  {
    l := j;
    if k :| j + 1 <= k < i && IsRead(log[k], REG_DATA) && ended(k) {
      l := LastEnd(log, ended, k, i);
    }
  }

  /** The chip took command byte `i` while it held off. */
  ghost predicate ClampedAt(log: seq<Event>, ended: nat -> bool, i: nat)
    requires i < |log|
  {
    IsDataWrite(log[i]) && log[i].ok && ChipAfter(log[..i], ended).command && HeldUnrecorded(log, ended, i)
  }

  /** The chip was given finish-handshake `i` while it owed none. */
  ghost predicate SpuriousAt(log: seq<Event>, ended: nat -> bool, i: nat)
    requires i < |log|
  {
    IsFinish(log[i]) && log[i].ok && (NoEndSince(log, ended, i) || ResetStands(log, ended, i))
  }

  lemma CleanNext(log: seq<Event>, ended: nat -> bool, n: nat)
    requires n < |log| && Disciplined(log, ended)
    ensures ChipAfter(log[..n + 1], ended).clean <==> ChipAfter(log[..n], ended).clean && !ClampedAt(log, ended, n)
  {
    var c := ChipAfter(log[..n], ended);
    ChipStep(log, ended, n);
    OneStep(c, log[n], ended(n));
    if IsDataWrite(log[n]) && c.command {
      ClampedCommand(log, ended, n);
    }
  }

  lemma HonestNext(log: seq<Event>, ended: nat -> bool, n: nat)
    requires n < |log|
    ensures ChipAfter(log[..n + 1], ended).honest <==> ChipAfter(log[..n], ended).honest && !SpuriousAt(log, ended, n)
  {
    var c := ChipAfter(log[..n], ended);
    ChipStep(log, ended, n);
    OneStep(c, log[n], ended(n));
    if IsFinish(log[n]) {
      SpuriousFinish(log, ended, n);
    }
  }

  /** Over a whole run: the bus stays clean exactly if no command byte follows a holdoff that
      has gone off the record. */
  lemma {:induction false} CleanExactly(log: seq<Event>, ended: nat -> bool, n: nat)
    requires n <= |log| && Disciplined(log, ended)
    ensures ChipAfter(log[..n], ended).clean <==> forall i :: 0 <= i < n ==> !ClampedAt(log, ended, i)
  {
    if n > 0 {
      CleanExactly(log, ended, n - 1);
      CleanNext(log, ended, n - 1);
    }
  }

  /** And no finish-handshake fabricates a byte exactly if none is sent for bytes without END
      alone or after a reset that did not reach the record. */
  lemma {:induction false} HonestExactly(log: seq<Event>, ended: nat -> bool, n: nat)
    requires n <= |log|
    ensures ChipAfter(log[..n], ended).honest <==> forall i :: 0 <= i < n ==> !SpuriousAt(log, ended, i)
  {
    if n > 0 {
      HonestExactly(log, ended, n - 1);
      HonestNext(log, ended, n - 1);
    }
  }
}
