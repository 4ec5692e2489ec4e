/**
 The KUSB-488B transport: arm, bulk, poll-status transfers through the adapter's firmware,
 and the register-level path kept beside it. Proved against what the adapter makes of the
 traffic, for every script of replies.
 */
module Kusb {
  import opened Bytes
  import opened Usb
  import opened Trace
  import opened Causes
  import BusLines

  const BULK_BUFFER := 0x1000
  const MAX_CMD_BYTES := 0x200
  const MAX_DATA_CHUNK := 64
  const CONTROL_BUFFER := 64

  const READ_WVALUE := 0x100
  const CMD_SYSTEM_CONTROLLER := 1
  const CMD_TIMEOUT: u32 := 3_000_000
  const INFINITE: u32 := 0xFFFF_FFFF

  const REOS := 0x400
  const NEWLINE: byte := 10

  const REG_BUS_LINES := 0x107

  const REQ_PULSE_IFC: byte := 0xB4
  const AUX_SIFC: byte := 0x1E
  const AUX_CIFC: byte := 0x16
  const AUX_SREN: byte := 0x1F
  const AUX_CREN: byte := 0x17

  const ADMR_MODE1: byte := 0x31

  function MapIOReturn(kr: KernReturn): Rc {
    match kr
    case Success => Ok
    case TimedOut => Rc.TimedOut
    case Aborted => Rc.Aborted
    case NotOpen => NotReady
    case Failed => IoError
  }

  function MsFromUsec(us: u32): (ms: nat)
    ensures ms <= 4294967
    ensures us == INFINITE || us == 0 ==> ms == 0
    ensures us != INFINITE && us > 0 ==> 1 <= ms && us - 1000 < ms * 1000 <= (if us < 1000 then 1000 else us)
  {
    if us == INFINITE then 0 else if us != 0 && us / 1000 == 0 then 1 else us / 1000
  }

  function PollIterationsFor(us: u32): (n: nat)
    ensures 100 <= n <= 30000
    ensures us != INFINITE && 100_000 <= us <= 30_000_999 ==> us - 1000 < n * 1000 <= us
    ensures us == INFINITE || us > 30_000_999 ==> n == 30000
    ensures us < 100_000 ==> n == 100
  {
    if us == INFINITE || us / 1000 > 30000 then 30000 else if us / 1000 < 100 then 100 else us / 1000
  }

  function Header(length: u32, us: u32): (hdr: seq<byte>)
    ensures |hdr| == 8
  {
    Bytes32(MsFromUsec(us))[..3] + [0] + Bytes32(length)
  }

  /** The header loses nothing: every timeout fits its 24-bit field, every length its 32. */
  lemma HeaderRoundTrip(length: u32, us: u32)
    ensures Value24(Header(length, us)) == MsFromUsec(us) && Header(length, us)[3] == 0
    ensures Value32(Header(length, us)[4..]) == length
  {
    Bytes32RoundTrip(MsFromUsec(us));
    Bytes32RoundTrip(length);
    assert Header(length, us)[4..] == Bytes32(length);
  }

  /** The traffic of one engine recovery. */
  function Recovery(ok: bool): seq<Event> {
    [Event.ControlOut(REQ_ABORT, 0, 0, [], ok), ClearStall(DataOut), ClearStall(CmdOut), ClearStall(DataIn)]
  }

  lemma TagPart(buf: seq<byte>, eoi: bool, from: nat, n: nat)
    requires from + n <= |buf|
    ensures Tag(buf[from..from + n], eoi && from + n == |buf|) == Tag(buf, eoi)[from..from + n]
  {
  }

  lemma TagStep(buf: seq<byte>, eoi: bool, from: nat, n: nat)
    requires from + n <= |buf|
    ensures Tag(buf, eoi)[..from] + Tag(buf, eoi)[from..from + n] == Tag(buf, eoi)[..from + n]
  {
  }

  /** One request of the bring-up. */
  datatype Setting = Setting(request: byte, wValue: nat, data: seq<byte>)

  const BRING_UP: seq<Setting> := [
    Setting(REQ_CMDBLOCK, 0, [0x05, 0x02, 0x01, 0x00, 0x02, 0x00, 0x03, 0x00]),
    Setting(REQ_CMDBLOCK, 0, [0x05, 0x01, 0x02]),
    Setting(REQ_CMDBLOCK, 0,
            [0x05, 0x70, 0x05, 0x82, 0x05, 0xC0, 0x05, 0xA8, 0x05, 0xC0, 0x05, 0xD0, 0x05, 0x49, 0x05, 0xE1]),
    Setting(REQ_CMDBLOCK, 0, [0x05, 0x20]),
    Setting(REQ_REG, REG_ADR, [0xE0]),
    Setting(REQ_REG, REG_ADR, [0x00]),
    Setting(REQ_REG, REG_ADMR, [ADMR_MODE1]),
    Setting(REQ_REG, REG_AUXMR, [AUX_PON])]

  function BringUpEvents(n: nat): seq<Event>
    requires n <= |BRING_UP|
  {
    seq(n, i requires 0 <= i < n => SettingEvent(i, true))
  }

  function SettingEvent(i: nat, ok: bool): Event
    requires i < |BRING_UP|
  {
    Event.ControlOut(BRING_UP[i].request, BRING_UP[i].wValue, 0, BRING_UP[i].data, ok)
  }

  /** The first `done` settings accepted, and the next one refused if there is one. */
  function Settled(done: nat): seq<Event> {
    if done < |BRING_UP| then BringUpEvents(done) + [SettingEvent(done, false)] else BringUpEvents(|BRING_UP|)
  }

  /** The chip after the first `done` settings: the reset in the first frees it, the power-on
      release in the last takes the holdoff off the record. */
  function BroughtUp(c: Chip, done: nat): Chip {
    if done == 0 then c
    else c.(held := false, role := if done >= 7 then ADMR_MODE1 else c.role,
            recorded := c.recorded && done < |BRING_UP|)
  }

  lemma SettingSizes(i: nat)
    requires i < |BRING_UP|
    ensures |BRING_UP[i].data| <= CONTROL_BUFFER && (BRING_UP[i].request == REQ_REG ==> BRING_UP[i].wValue != REG_DATA)
    ensures (i == 0 ==> |BRING_UP[i].data| == 8) && (i == 1 ==> |BRING_UP[i].data| == 3)
  {
  }

  lemma SettingAccepted(c: Chip, i: nat)
    requires i < |BRING_UP|
    ensures BroughtUp(c, i).Step(SettingEvent(i, true), false) == BroughtUp(c, i + 1)
  {
    var ev := SettingEvent(i, true);
    if i < 4 {
      assert IsReset(ev) <==> i == 0;
      assert !TakesControl(ev) && !GoesToStandby(ev);
    } else if i < 6 {
      assert ev.request == REQ_REG && ev.wValue == REG_ADR;
    } else if i == 6 {
      assert ev.request == REQ_REG && ev.wValue == REG_ADMR && ev.data[0] == ADMR_MODE1;
    } else {
      assert BroughtUp(c, i).Step(ev, false) == BroughtUp(c, i).Aux(AUX_PON, true);
    }
  }

  lemma SettingRefused(c: Chip, i: nat)
    requires i < |BRING_UP|
    ensures c.Step(SettingEvent(i, false), false) == c
  {
    assert i == 7 ==> c.Aux(AUX_PON, false) == c;
  }

  lemma BringUpNext(start: seq<Event>, n: nat)
    requires n < |BRING_UP|
    ensures start + BringUpEvents(n + 1) == start + BringUpEvents(n) + [SettingEvent(n, true)]
    ensures start + Settled(n) == start + BringUpEvents(n) + [SettingEvent(n, false)]
  {
  }

  // ----- The traffic of a transfer -----

  /** An arming for this timeout, with nothing asked for but EOI. */
  predicate IsArming(ev: Event, request: byte, us: u32) {
    && ev.ControlOut? && ev.request == request && ev.wIndex == 0
    && |ev.data| == 8 && Value24(ev.data) == MsFromUsec(us) && ev.data[3] == 0
    && if request == REQ_BEGIN_CMD then ev.wValue == 1 else ev.wValue == 0 || ev.wValue == 0x100
  }

  /** What a transfer consists of: armings, bulk transfers and status polls. */
  predicate Plain(ev: Event, request: byte, pipe: Pipe, len: nat, us: u32) {
    || IsArming(ev, request, us) || IsPoll(ev, len)
    || (ev.BulkOut? && ev.pipe == pipe && ev.ms == MsFromUsec(us) && ev.size <= BULK_BUFFER)
  }

  /** Where the recovery or the abort begins that ends the log, if one does. */
  function Undisturbed(log: seq<Event>): nat {
    if EndsInRecovery(log) then |log| - 4 else if log != [] && IsAbort(log[|log| - 1]) then |log| - 1 else |log|
  }

  ghost predicate AllPlain(log: seq<Event>, from: nat, to: nat, request: byte, pipe: Pipe, len: nat, us: u32)
    requires to <= |log|
  {
    forall k :: from <= k < to ==> Plain(log[k], request, pipe, len, us)
  }

  /** Nothing but a transfer since event `from`, up to an abort or a recovery at the very end. */
  ghost predicate Orderly(log: seq<Event>, from: nat, request: byte, pipe: Pipe, len: nat, us: u32) {
    AllPlain(log, from, Undisturbed(log), request, pipe, len, us)
  }

  /** The traffic of a read from its first bulk-in on: bulk-ins and status polls, and after the
      first one a bulk-in only right behind a status that says BUSY. */
  ghost predicate ReadsInTurn(log: seq<Event>, from: nat, to: nat)
    requires to <= |log|
  {
    forall k :: from <= k < to ==> TurnAt(log, from, k)
  }

  predicate TurnAt(log: seq<Event>, from: nat, k: nat)
    requires from <= k < |log|
  {
    if log[k].BulkIn? then log[k].pipe == DataIn && (k == from || IsBusyRead(log[k - 1]))
    else k > from && IsPoll(log[k], STATUS_LEN_READ)
  }

  lemma SameTurns(before: seq<Event>, log: seq<Event>, from: nat)
    requires before <= log && ReadsInTurn(before, from, |before|)
    ensures ReadsInTurn(log, from, |before|)
  {
    forall k | from <= k < |before|
      ensures TurnAt(log, from, k)
    {
      assert TurnAt(before, from, k);
      assert log[k] == before[k] && (k > 0 ==> log[k - 1] == before[k - 1]);
    }
  }

  lemma OneTurn(before: seq<Event>, log: seq<Event>, from: nat)
    requires from <= |before| < |log| && before <= log && ReadsInTurn(before, from, |before|)
    requires var ev := log[|before|];
             if ev.BulkIn? then ev.pipe == DataIn && (|before| == from || IsBusyRead(before[|before| - 1]))
             else |before| > from && IsPoll(ev, STATUS_LEN_READ)
    ensures ReadsInTurn(log, from, |before| + 1)
  {
    SameTurns(before, log, from);
    assert |before| > 0 ==> log[|before| - 1] == before[|before| - 1];
    assert TurnAt(log, from, |before|);
  }

  /** The same, up to a recovery at the very end. */
  ghost predicate ReadsOrderly(log: seq<Event>, from: nat) {
    ReadsInTurn(log, from, Undisturbed(log))
  }

  lemma RecoveredInTurn(before: seq<Event>, log: seq<Event>, from: nat)
    requires before <= log && |log| == |before| + 4 && EndsInRecovery(log) && ReadsInTurn(before, from, |before|)
    ensures ReadsOrderly(log, from)
  {
    SameTurns(before, log, from);
  }

  lemma OrderlyWait(before: seq<Event>, log: seq<Event>, from: nat, clock: nat -> nat, t0: nat, t1: nat,
                    rc: Rc, status: seq<byte>, request: byte, pipe: Pipe, len: nat, us: u32)
    requires len >= 2 && from <= |before| && before <= log && AllPlain(before, from, |before|, request, pipe, len, us)
    requires WaitEnds(log, |before|, len, clock, t0, t1, us, rc, status)
    ensures Orderly(log, from, request, pipe, len, us) && !EndsInRecovery(log)
    ensures !IsAbort(log[|log| - 1]) ==> AllPlain(log, from, |log|, request, pipe, len, us)
  {
    forall k | from <= k < |log| - 1
      ensures Plain(log[k], request, pipe, len, us)
    {
      assert k < |before| ==> log[k] == before[k];
      assert k >= |before| ==> Waits(log[k], len);
    }
  }

  lemma OrderlyOn(before: seq<Event>, log: seq<Event>, from: nat, request: byte, pipe: Pipe, len: nat, us: u32)
    requires from <= |before| && before <= log && AllPlain(before, from, |before|, request, pipe, len, us)
    requires Orderly(log, |before|, request, pipe, len, us)
    ensures Orderly(log, from, request, pipe, len, us)
  {
    forall k | from <= k < Undisturbed(log)
      ensures Plain(log[k], request, pipe, len, us)
    {
      assert k < |before| ==> log[k] == before[k];
    }
  }

  /** Interface clear was asserted and released through the chip. */
  predicate ChipPulsed(log: seq<Event>) {
    && |log| >= 2
    && log[|log| - 2] == Event.ControlOut(REQ_REG, REG_AUXMR, 0, [AUX_SIFC], true)
    && log[|log| - 1] == Event.ControlOut(REQ_REG, REG_AUXMR, 0, [AUX_CIFC], true)
  }

  /** The code of a pulse that failed: that of a failed request, or the status was not DONE. */
  predicate PulseCode(rc: Rc, log: seq<Event>, last: Reply) {
    && log != []
    && if log[|log| - 1].ControlIn? && log[|log| - 1].ok then rc.IoError? else Codes(rc, last)
  }

  /** A request and, if it is accepted, one status poll of `len` bytes. */
  predicate AskedOnce(d: seq<Event>, request: byte, len: nat) {
    && d != [] && d[0].ControlOut? && d[0] == Event.ControlOut(request, 0, 0, [], d[0].ok)
    && if d[0].ok then |d| == 2 && IsPoll(d[1], len) else |d| == 1
  }

  /** The same, and once more exactly if the status says `again`. */
  predicate Asked(d: seq<Event>, request: byte, len: nat, again: Event -> bool) {
    if |d| >= 2 && again(d[1]) then AskedOnce(d[..2], request, len) && AskedOnce(d[2..], request, len)
    else AskedOnce(d, request, len)
  }

  lemma AskedTwice(first: seq<Event>, second: seq<Event>, request: byte, len: nat, again: Event -> bool)
    requires AskedOnce(first, request, len) && AskedOnce(second, request, len) && |first| == 2 && again(first[1])
    ensures var d := first + second;
            Asked(d, request, len, again) && |d| >= 3 && d[|d| - 1] == second[|second| - 1]
  {
    var d := first + second;
    assert d[..2] == first && d[2..] == second;
  }

  /** A poll that was answered, but not with DONE. */
  predicate NotPulsed(ev: Event) {
    ev.ControlIn? && ev.ok && ev.got != [STATE_DONE]
  }

  /** A poll that failed or was not answered with DONE. */
  predicate NotReleased(ev: Event) {
    ev.ControlIn? && !(ev.ok && |ev.got| >= 1 && ev.got[0] == STATE_DONE)
  }

  /** Assert and, if that is accepted, release of interface clear through the chip. */
  predicate ViaAux(d: seq<Event>) {
    && d != [] && d[0].ControlOut? && d[0] == Event.ControlOut(REQ_REG, REG_AUXMR, 0, [AUX_SIFC], d[0].ok)
    && if !d[0].ok then |d| == 1
       else |d| == 2 && d[1].ControlOut? && d[1] == Event.ControlOut(REQ_REG, REG_AUXMR, 0, [AUX_CIFC], d[1].ok)
  }

  predicate FirmwarePulsed(log: seq<Event>) {
    log != [] && log[|log| - 1] == Event.ControlIn(REQ_STATUS, 0, 1, [STATE_DONE], true)
  }

  /** The last event is data refused right after EOI was armed for it, both since `from`. */
  predicate LostEoi(log: seq<Event>, from: nat) {
    && |log| >= from + 2
    && log[|log| - 2] == Event.ControlOut(REQ_REG, REG_AUXMR, 0, [AUX_SEOI], true)
    && RefusedData(log[|log| - 1])
  }

  predicate RefusedData(ev: Event) {
    IsDataWrite(ev) && !ev.ok
  }

  lemma LostInStep(before: seq<Event>, log: seq<Event>, from: nat)
    requires from < |before| < |log| && before <= log && before[|before| - 1].ControlIn?
    ensures LostEoi(log, from) <==> LostEoi(log, |before|)
  {
    assert log[|before| - 1] == before[|before| - 1];
  }

  /** The log from `from` on ends in an ISR1 read of `isr1` and the byte it announced. */
  predicate Announced(log: seq<Event>, from: nat, isr1: byte, b: byte) {
    && |log| >= from + 2
    && log[|log| - 2] == Event.ControlIn(REQ_REG, REG_ISR1, 1, [isr1], true)
    && log[|log| - 1] == Event.ControlIn(REQ_REG, REG_DATA, 1, [b], true)
  }

  /** The last byte received is `b`, by event `at`, right after an ISR1 read. */
  predicate FetchedAt(log: seq<Event>, at: nat, b: byte) {
    && 0 < at < |log| && IsReceipt(log[at]) && log[at].got == [b]
    && IsRead(log[at - 1], REG_ISR1) && NoReceipts(log, at + 1)
  }

  /** END is reported with the byte of event `at` exactly if the ISR1 read before it showed
      END in a read where that counts. */
  predicate Reported(log: seq<Event>, at: nat, b: byte, ended: bool, unusable: bool) {
    FetchedAt(log, at, b) && (ended <==> !unusable && ReadsBit(log[at - 1], REG_ISR1, ISR1_END))
  }

  /** Termination on the EOS character is asked for by a flag that does not fit the eight bits
      in which the flags are passed. */
  lemma EosNeverAsked(eosFlags: byte)
    ensures !HasBit(eosFlags, REOS)
  {
  }

  lemma StillReported(before: seq<Event>, log: seq<Event>, at: nat)
    requires before <= log && NoReceipts(log, |before|) && at < |before|
    ensures forall b, ended, unusable ::
              Reported(before, at, b, ended, unusable) ==> Reported(log, at, b, ended, unusable)
  {
    assert log[at] == before[at] && (at > 0 ==> log[at - 1] == before[at - 1]);
    if NoReceipts(before, at + 1) {
      forall k | at + 1 <= k < |log|
        ensures !IsReceipt(log[k])
      {
        assert k < |before| ==> log[k] == before[k];
      }
    }
  }

  /** The chip after it took these command bytes with nothing on the record. */
  function Commanded(c: Chip, cmds: seq<byte>): Chip {
    c.(cmds := c.cmds + cmds, clean := c.clean && !(c.held && cmds != []))
  }

  lemma ReceivedNext(c: Chip, sofar: seq<byte>, more: seq<byte>, end: bool, also: bool)
    ensures c.Receive(sofar, end).Receive(more, also) == c.Receive(sofar + more, end || also)
  {
    Associative(c.received, sofar, more);
  }

  lemma NothingReceived(c: Chip)
    ensures c.Receive([], false) == c
  {
    assert c.received + [] == c.received;
  }

  /** A message with EOI on its last byte if asked for, and on its first if that was latched. */
  function Marked(data: seq<byte>, eoi: bool, latched: bool): (t: seq<BusByte>)
    ensures |t| == |data|
  {
    seq(|data|, i requires 0 <= i < |data| => BusByte(data[i], (eoi && i == |data| - 1) || (latched && i == 0)))
  }

  lemma MarkedNext(sent: seq<BusByte>, data: seq<byte>, eoi: bool, latched: bool, i: nat)
    requires i < |data|
    ensures sent + Marked(data, eoi, latched)[..i] + [BusByte(data[i], (latched && i == 0) || (eoi && i == |data| - 1))]
            == sent + Marked(data, eoi, latched)[..i + 1]
  {
  }

  /** The chip after `n` bytes of a message; `lost` says that EOI was then armed in vain. */
  function Streamed(c: Chip, data: seq<byte>, eoi: bool, n: nat, lost: bool): Chip
    requires n <= |data|
  {
    c.(sent := c.sent + Marked(data, eoi, c.eoiLatched)[..n], eoiLatched := (n == 0 && c.eoiLatched) || lost)
  }

  /** The chip after an attempt to send one byte. */
  function Attempted(c: Chip, b: byte, eoi: bool, wrote: bool, lost: bool): Chip {
    if wrote then c.(sent := c.sent + [BusByte(b, c.eoiLatched || eoi)], eoiLatched := false)
    else c.(eoiLatched := c.eoiLatched || lost)
  }

  lemma StreamedNone(c: Chip, data: seq<byte>, eoi: bool)
    ensures Streamed(c, data, eoi, 0, false) == c
  {
    assert c.sent + Marked(data, eoi, c.eoiLatched)[..0] == c.sent;
  }

  lemma StreamedNext(c: Chip, data: seq<byte>, eoi: bool, i: nat, wrote: bool, lost: bool)
    requires i < |data| && (lost ==> !wrote)
    ensures Attempted(Streamed(c, data, eoi, i, false), data[i], eoi && i == |data| - 1, wrote, lost)
            == Streamed(c, data, eoi, if wrote then i + 1 else i, lost)
  {
    MarkedNext(c.sent, data, eoi, c.eoiLatched, i);
  }

  /** It is the ideal message exactly if nothing was latched, nothing went out, or the first
      byte was to carry EOI anyway. */
  lemma MarkedIsTag(data: seq<byte>, eoi: bool, latched: bool, n: nat)
    requires n <= |data|
    ensures Marked(data, eoi, latched)[..n] == Tag(data, eoi)[..n] <==> !latched || n == 0 || (eoi && |data| == 1)
  {
    if latched && n > 0 && !(eoi && |data| == 1) {
      assert Marked(data, eoi, latched)[..n][0].eoi && !Tag(data, eoi)[..n][0].eoi;
    } else {
      assert Marked(data, eoi, latched)[..n] == Tag(data, eoi)[..n];
    }
  }

  function FinishEvent(ok: bool): Event {
    Event.ControlOut(REQ_REG, REG_AUXMR, 0, [AUX_FH], ok)
  }

  /** What a read does after a status poll. */
  datatype Verdict = Retry | FetchMore | Over(rc: Rc)

  class Transport {
    const usb: Device
    var maxDataChunk: nat
    var rfdHoldoffPending: bool
    var renAsserted: bool

    constructor (usb: Device)
      requires usb.log == []
      ensures this.usb == usb && Valid()
    {
      this.usb := usb;
      maxDataChunk, rfdHoldoffPending, renAsserted := MAX_DATA_CHUNK, false, false;
    }

    ghost function E(): Engine
      reads usb
    {
      EngineAfter(usb.log)
    }

    ghost function C(): Chip
      reads usb
    {
      ChipAfter(usb.log, usb.ended)
    }

    /** The flag is the record that the log shows, and the discipline has held so far. */
    ghost predicate Valid()
      reads this, usb
    {
      C().disciplined && rfdHoldoffPending == C().recorded
    }

    // ----- Control transfers -----

    method ControlOut(request: byte, wValue: nat, wIndex: nat, data: seq<byte>) returns (rc: Rc)
      modifies usb`next, usb`log
      ensures |data| <= CONTROL_BUFFER ==>
        && usb.log == old(usb.log) + [Event.ControlOut(request, wValue, wIndex, data, rc.Ok?)]
        && E() == old(E()).Step(Event.ControlOut(request, wValue, wIndex, data, rc.Ok?))
        && C() == old(C()).Step(Event.ControlOut(request, wValue, wIndex, data, rc.Ok?), false)
      ensures |data| > CONTROL_BUFFER ==> rc.IoError? && usb.log == old(usb.log)
      ensures |data| <= CONTROL_BUFFER ==>
                usb.next == old(usb.next) + 1 && (rc.Ok? <==> Accepts(old(usb.Upcoming(0)), |data|))
      ensures |data| <= CONTROL_BUFFER && !rc.Ok? ==> Codes(rc, usb.Past(1))
      ensures usb.Left() <= old(usb.Left()) && !rc.NoListener?
    {
      if |data| > CONTROL_BUFFER {
        return IoError;
      }
      var kr, transferred := usb.DeviceRequestOut(request, wValue, wIndex, data);
      OneMore(old(usb.log), Event.ControlOut(request, wValue, wIndex, data, kr.Success? && transferred == |data|),
              usb.ended);
      if !kr.Success? {
        return MapIOReturn(kr);
      }
      return if transferred != |data| then IoError else Ok;
    }

    method ControlIn(request: byte, wValue: nat, len: nat) returns (rc: Rc, got: seq<byte>)
      requires len <= CONTROL_BUFFER
      modifies usb`next, usb`log
      ensures |got| <= len && (!rc.Ok? ==> got == [])
      ensures usb.next == old(usb.next) + 1 && (rc.Ok? <==> old(usb.Upcoming(0)).kr.Success?)
      ensures !rc.Ok? ==> Codes(rc, usb.Past(1))
      ensures rc.Ok? ==> got == old(usb.Upcoming(0)).data[..Min(|old(usb.Upcoming(0)).data|, len)]
      ensures usb.log == old(usb.log) + [Event.ControlIn(request, wValue, len, got, rc.Ok?)]
      ensures E() == old(E()).Step(Event.ControlIn(request, wValue, len, got, rc.Ok?))
      ensures C() == old(C()).Step(Event.ControlIn(request, wValue, len, got, rc.Ok?), usb.ended(|old(usb.log)|))
      ensures usb.Left() <= old(usb.Left()) && (rc.Ok? ==> usb.Left() < old(usb.Left()))
    {
      var kr;
      kr, got := usb.DeviceRequestIn(request, wValue, len);
      rc := MapIOReturn(kr);
      OneMore(old(usb.log), Event.ControlIn(request, wValue, len, got, rc.Ok?), usb.ended);
    }

    // ----- Bulk transfers -----

    /** Of `bytes`, the armed engine has taken the first `n`. */
    static ghost predicate Fed(e0: Engine, e: Engine, pipe: Pipe, bytes: seq<byte>, n: nat) {
      && n <= |bytes|
      && if pipe == DataOut then e == e0.(data := e0.data + Tag(bytes, e0.eoi)[..n], armed := |bytes| - n)
         else e == e0.(cmds := e0.cmds + bytes[..n], cmdArmed := |bytes| - n)
    }

    /** Resumes after every short transfer until all of `bytes` is handed over. */
    method BulkOut(pipe: Pipe, bytes: seq<byte>, timeoutUs: u32) returns (rc: Rc, ghost done: nat)
      requires pipe == DataOut || pipe == CmdOut
      requires |bytes| == if pipe == DataOut then E().armed else E().cmdArmed
      modifies usb`next, usb`log
      ensures done <= |bytes| && (rc.Ok? ==> done == |bytes|) && Fed(old(E()), E(), pipe, bytes, done)
      ensures old(usb.log) <= usb.log && C() == old(C()) && !rc.NoListener?
      ensures !rc.Ok? ==> usb.log != [] && IsBadBulk(usb.log[|usb.log| - 1], pipe) && Codes(rc, usb.Past(1))
      ensures forall k :: |old(usb.log)| <= k < |usb.log| ==> Offered(usb.log[k], pipe, timeoutUs)
    {
      ghost var e0 := E();
      var sent := 0;
      done := 0;
      while sent < |bytes|
        invariant sent == done && Fed(e0, E(), pipe, bytes, sent)
        invariant forall k :: |old(usb.log)| <= k < |usb.log| ==> Offered(usb.log[k], pipe, timeoutUs)
        invariant C() == old(C()) && old(usb.log) <= usb.log
      {
        var kr, transferred := PutSome(pipe, bytes, sent, timeoutUs, e0);
        sent, done := sent + transferred, sent + transferred;
        if !kr.Success? {
          rc := MapIOReturn(kr);
          return;
        }
        if transferred == 0 {
          return IoError, done;
        }
      }
      rc := Ok;
    }

    /** A bulk-out that fits the bounce buffer, with this timeout. */
    static predicate Offered(ev: Event, pipe: Pipe, us: u32) {
      ev.BulkOut? && ev.pipe == pipe && ev.size <= BULK_BUFFER && ev.ms == MsFromUsec(us)
    }

    /** One bulk transfer of what is left, as much of it as the bounce buffer holds. */
    method PutSome(pipe: Pipe, bytes: seq<byte>, sent: nat, timeoutUs: u32, ghost e0: Engine)
      returns (kr: KernReturn, transferred: nat)
      requires sent < |bytes| && (pipe == DataOut || pipe == CmdOut) && Fed(e0, E(), pipe, bytes, sent)
      modifies usb`next, usb`log
      ensures sent + transferred <= |bytes| && Fed(e0, E(), pipe, bytes, sent + transferred)
      ensures old(usb.log) < usb.log && |usb.log| == |old(usb.log)| + 1 && C() == old(C())
      ensures Offered(usb.log[|usb.log| - 1], pipe, timeoutUs)
      ensures usb.log[|usb.log| - 1].size == Min(|bytes| - sent, BULK_BUFFER)
      ensures !kr.Success? || transferred == 0 ==> IsBadBulk(usb.log[|usb.log| - 1], pipe)
      ensures kr == usb.Past(1).kr
    {
      var chunk := Min(|bytes| - sent, BULK_BUFFER);
      ghost var was := E();
      kr, transferred := usb.PipeOut(pipe, bytes[sent..sent + chunk], MsFromUsec(timeoutUs));
      var put := bytes[sent..sent + chunk][..transferred];
      OneMore(old(usb.log), Event.BulkOut(pipe, chunk, MsFromUsec(timeoutUs), put, kr.Success?), usb.ended);
      assert put == bytes[sent..sent + transferred];
      PutNext(was, bytes, e0.eoi, sent, transferred, pipe, chunk, MsFromUsec(timeoutUs), kr.Success?, e0);
    }

    static lemma PutNext(was: Engine, bytes: seq<byte>, eoi: bool, sent: nat, n: nat, pipe: Pipe, size: nat, ms: nat,
                         ok: bool, e0: Engine)
      requires sent + n <= |bytes| && e0.eoi == eoi
      requires pipe == DataOut || pipe == CmdOut
      requires pipe == DataOut ==> was == e0.(data := e0.data + Tag(bytes, eoi)[..sent], armed := |bytes| - sent)
      requires pipe == CmdOut ==> was == e0.(cmds := e0.cmds + bytes[..sent], cmdArmed := |bytes| - sent)
      ensures var e := was.Step(Event.BulkOut(pipe, size, ms, bytes[sent..sent + n], ok));
              && (pipe == DataOut ==>
                    e == e0.(data := e0.data + Tag(bytes, eoi)[..sent + n], armed := |bytes| - (sent + n)))
              && (pipe == CmdOut ==> e == e0.(cmds := e0.cmds + bytes[..sent + n], cmdArmed := |bytes| - (sent + n)))
    {
      if pipe == DataOut {
        PutData(was, bytes, sent, n);
        Associative(e0.data, Tag(bytes, eoi)[..sent], Tag(bytes, eoi)[sent..sent + n]);
        TagStep(bytes, eoi, sent, n);
      } else {
        PutCmds(was, bytes, sent, n);
        Associative(e0.cmds, bytes[..sent], bytes[sent..sent + n]);
        assert bytes[..sent] + bytes[sent..sent + n] == bytes[..sent + n];
      }
    }

    static lemma PutData(was: Engine, bytes: seq<byte>, sent: nat, n: nat)
      requires sent + n <= |bytes| && was.armed == |bytes| - sent
      ensures was.Put(bytes[sent..sent + n]) ==
              was.(data := was.data + Tag(bytes, was.eoi)[sent..sent + n], armed := |bytes| - (sent + n))
    {
      var put := bytes[sent..sent + n];
      var tagged := seq(n, i requires 0 <= i < n => BusByte(put[i], was.eoi && i == was.armed - 1));
      assert tagged == Tag(bytes, was.eoi)[sent..sent + n];
      assert Min(|put|, was.armed) == n;
      assert was.Put(put).data == was.data + tagged;
    }

    static lemma PutCmds(was: Engine, bytes: seq<byte>, sent: nat, n: nat)
      requires sent + n <= |bytes| && was.cmdArmed == |bytes| - sent
      ensures was.PutCmds(bytes[sent..sent + n]) ==
                was.(cmds := was.cmds + bytes[sent..sent + n], cmdArmed := |bytes| - (sent + n))
    {
      var put := bytes[sent..sent + n];
      assert put[..n] == put;
    }

    /** One bulk-in into `buf` at `at`: the bytes fetched, stored in order, and no others. */
    method BulkIn(buf: array<byte>, at: nat, capacity: nat, timeoutUs: u32) returns (rc: Rc, got: nat)
      requires at + capacity <= buf.Length
      modifies usb`next, usb`log, buf
      ensures got <= capacity && (!rc.Ok? ==> got == 0)
      ensures buf[..] == old(buf[..at]) + buf[at..at + got] + old(buf[at + got..])
      ensures usb.log == old(usb.log) +
                [Event.BulkIn(DataIn, Min(capacity, 0x1000), MsFromUsec(timeoutUs), buf[at..at + got], rc.Ok?)]
      ensures C() == old(C()) && (!rc.Ok? ==> Codes(rc, usb.Past(1)))
      ensures E() == old(E()).Step(usb.log[|old(usb.log)|])
      ensures usb.Left() <= old(usb.Left())
    {
      var kr, data := usb.PipeIn(DataIn, Min(capacity, BULK_BUFFER), MsFromUsec(timeoutUs));
      rc, got := MapIOReturn(kr), |data|;
      OneMore(old(usb.log), usb.log[|old(usb.log)|], usb.ended);
      ghost var was := buf[..];
      forall i | 0 <= i < |data| {
        buf[at + i] := data[i];
      }
      assert buf[at..at + got] == data;
      assert buf[..at] == was[..at] && buf[at + got..] == was[at + got..];
      assert buf[..] == buf[..at] + buf[at..at + got] + buf[at + got..];
    }

    // ----- Arming, polling, recovering -----

    method BeginTransfer(request: byte, wValue: nat, wIndex: nat, length: u32, timeoutUs: u32) returns (rc: Rc)
      modifies usb`next, usb`log
      ensures usb.log == old(usb.log) + [Event.ControlOut(request, wValue, wIndex, Header(length, timeoutUs), rc.Ok?)]
      ensures E() == old(E()).Step(Event.ControlOut(request, wValue, wIndex, Header(length, timeoutUs), rc.Ok?))
      ensures request != REQ_REG && request != REQ_CMDBLOCK && request != REQ_GTS ==> C() == old(C())
      ensures !rc.Ok? ==> Codes(rc, usb.Past(1))
      ensures usb.Left() <= old(usb.Left()) && !rc.NoListener?
    {
      var ms := MsFromUsec(timeoutUs);
      rc := ControlOut(request, wValue, wIndex,
                       [Low(ms, 1), Low(ms, 0x100), Low(ms, 0x1_0000), 0,
                        Low(length, 1), Low(length, 0x100), Low(length, 0x1_0000), Low(length, 0x100_0000)]);
      assert Header(length, timeoutUs) == [Low(ms, 1), Low(ms, 0x100), Low(ms, 0x1_0000), 0,
                        Low(length, 1), Low(length, 0x100), Low(length, 0x1_0000), Low(length, 0x100_0000)];
    }

    method AbortTransfer() returns (rc: Rc)
      modifies usb`next, usb`log
      ensures usb.next == old(usb.next) + 1
      ensures usb.log == old(usb.log) + [Event.ControlOut(REQ_ABORT, 0, 0, [], rc.Ok?)]
      ensures E() == old(E()).(armed := 0, cmdArmed := 0, readPending := false)
      ensures C() == old(C()) && usb.Left() <= old(usb.Left())
    {
      rc := ControlOut(REQ_ABORT, 0, 0, []);
    }

    /** Abort, then clear the halt on all three bulk pipes. */
    method RecoverFirmwareEngine()
      modifies usb`next, usb`log
      ensures usb.next == old(usb.next) + 1
      ensures exists ok :: usb.log == old(usb.log) + Recovery(ok)
      ensures EndsInRecovery(usb.log) && |usb.log| == |old(usb.log)| + 4 && old(usb.log) <= usb.log
      ensures E() == old(E()).(armed := 0, cmdArmed := 0, readPending := false)
      ensures C() == old(C()) && usb.Left() <= old(usb.Left())
    {
      var rc := AbortTransfer();
      OneMore(usb.log, ClearStall(DataOut), usb.ended);
      usb.ClearHalt(DataOut);
      OneMore(usb.log, ClearStall(CmdOut), usb.ended);
      usb.ClearHalt(CmdOut);
      OneMore(usb.log, ClearStall(DataIn), usb.ended);
      usb.ClearHalt(DataIn);
      assert usb.log == old(usb.log) + Recovery(rc.Ok?);
    }

    /** The clock is read only if there is a deadline. */
    method PastDeadline(deadline: nat) returns (late: bool)
      modifies usb`ticks
      ensures if deadline == 0 then !late && usb.ticks == old(usb.ticks)
              else usb.ticks == old(usb.ticks) + 1 && late == (usb.clock(old(usb.ticks)) > deadline)
    {
      late := false;
      if deadline != 0 {
        var now := usb.Now();
        late := now > deadline;
      }
    }

    method PollOnce(statusLen: nat) returns (read: bool, got: seq<byte>)
      requires statusLen <= 16
      modifies usb`next, usb`log
      ensures |got| <= statusLen && usb.log == old(usb.log) + [Event.ControlIn(REQ_STATUS, 0, statusLen, got, read)]
      ensures E().SameOutput(old(E())) && E().polls == old(E()).polls + 1 && C() == old(C())
    {
      var rc;
      rc, got := ControlIn(REQ_STATUS, 0, statusLen);
      read := rc.Ok?;
    }

    /** How the wait ended is decided by the last event: an abort after the deadline or the last
        of POLL_LIMIT polls, a glitch after the budget for them, or a full status block that is
        not busy. The count is the block's little-endian field of the width asked for. */
    method PollStatus(statusLen: nat, countWidth: nat, timeoutUs: u32)
      returns (rc: Rc, count: nat, status: seq<byte>)
      requires 6 <= statusLen <= 16 && (countWidth == 2 || countWidth == 4)
      modifies usb`next, usb`log, usb`ticks
      ensures old(usb.log) <= usb.log && old(usb.ticks) <= usb.ticks
      ensures WaitEnds(usb.log, |old(usb.log)|, statusLen, usb.clock, old(usb.ticks), usb.ticks, timeoutUs, rc, status)
      ensures count < 0x1_0000_0000
      ensures if status == [] then count == 0 else Encodes(status, countWidth, count)
      ensures E().SameOutput(old(E())) && C() == old(C())
      ensures E().polls <= old(E()).polls + POLL_LIMIT
    {
      ghost var from, t0 := |usb.log|, usb.ticks;
      ghost var g: nat, s: nat := 0, 0;
      count, status := 0, [];
      var deadline := 0;
      if timeoutUs != 0 {
        var start := usb.Now();
        deadline := start + timeoutUs * 1000;
      }
      var glitchStart: nat := 0;
      for spins := 0 to POLL_LIMIT
        invariant status == [] && count == 0
        invariant E().SameOutput(old(E())) && C() == old(C()) && E().polls <= old(E()).polls + spins
        invariant old(usb.log) <= usb.log && |usb.log| == from + spins && t0 <= usb.ticks
        invariant DeadlineSet(deadline, usb.clock, t0, usb.ticks, timeoutUs)
        invariant AllWait(usb.log, from, statusLen)
        invariant glitchStart != 0 ==>
                    GlitchesFrom(usb.log, from, statusLen, usb.clock, t0, usb.ticks, g, s, glitchStart)
      {
        var more;
        more, glitchStart, g, s, rc, count, status :=
          PollTurn(statusLen, countWidth, timeoutUs, deadline, glitchStart, from, t0, g, s);
        if !more {
          return;
        }
      }
      ghost var before := usb.log;
      var aborted := AbortTransfer();
      WaitAborted(before, aborted.Ok?, from, statusLen, usb.clock, t0, usb.ticks, timeoutUs);
      rc := Rc.TimedOut;
    }

    /** One turn of the wait: `more` unless it is over. */
    method PollTurn(statusLen: nat, countWidth: nat, timeoutUs: u32, deadline: nat, glitchSince: nat,
                    ghost from: nat, ghost t0: nat, ghost g0: nat, ghost s0: nat)
      returns (more: bool, glitchStart: nat, ghost g: nat, ghost s: nat, rc: Rc, count: nat, status: seq<byte>)
      requires 6 <= statusLen <= 16 && (countWidth == 2 || countWidth == 4)
      requires from <= |usb.log| && AllWait(usb.log, from, statusLen) && t0 <= usb.ticks
      requires DeadlineSet(deadline, usb.clock, t0, usb.ticks, timeoutUs)
      requires glitchSince != 0 ==>
                 GlitchesFrom(usb.log, from, statusLen, usb.clock, t0, usb.ticks, g0, s0, glitchSince)
      modifies usb`next, usb`log, usb`ticks
      ensures old(usb.log) <= usb.log && |usb.log| == |old(usb.log)| + 1 && old(usb.ticks) <= usb.ticks
      ensures E().SameOutput(old(E())) && C() == old(C()) && E().polls <= old(E()).polls + 1
      ensures DeadlineSet(deadline, usb.clock, t0, usb.ticks, timeoutUs)
      ensures more ==> AllWait(usb.log, from, statusLen) && status == [] && count == 0
      ensures more && glitchStart != 0 ==>
                GlitchesFrom(usb.log, from, statusLen, usb.clock, t0, usb.ticks, g, s, glitchStart)
      ensures !more ==> WaitEnds(usb.log, from, statusLen, usb.clock, t0, usb.ticks, timeoutUs, rc, status)
      ensures count < 0x1_0000_0000
      ensures if status == [] then count == 0 else Encodes(status, countWidth, count)
    {
      more, glitchStart, g, s, rc, count, status := false, glitchSince, g0, s0, Rc.TimedOut, 0, [];
      ghost var before, t := usb.log, usb.ticks;
      var late := PastDeadline(deadline);
      if late {
        var aborted := AbortTransfer();
        WaitAborted(before, aborted.Ok?, from, statusLen, usb.clock, t0, usb.ticks, timeoutUs);
        return;
      }
      var read, got := PollOnce(statusLen);
      ghost var ev := Event.ControlIn(REQ_STATUS, 0, statusLen, got, read);
      if !read || |got| < statusLen {
        MoreWait(before, ev, from, statusLen);
        more, glitchStart, g, s := AfterGlitch(glitchSince, statusLen, timeoutUs, before, ev, from, t0, t, g, s);
        rc := IoError;
        return;
      }
      glitchStart := 0;
      if got[0] == STATE_BUSY {
        MoreWait(before, ev, from, statusLen);
        more := true;
        return;
      }
      count := StatusCount(got, if countWidth == 4 && statusLen >= 6 then 4 else 2);
      status := got;
      CountDecodes(status, countWidth, count);
      WaitAnswered(before, ev, from, statusLen, usb.clock, t0, usb.ticks, timeoutUs);
      rc := if got[0] == STATE_DONE then Ok else if got[1] == ERR_ABORTED then Rc.TimedOut else IoError;
    }

    /** A glitch starts the clock for glitches, or finds that it has run too long. */
    method AfterGlitch(glitchSince: nat, statusLen: nat, ghost us: u32, ghost before: seq<Event>, ghost ev: Event,
                       ghost from: nat, ghost t0: nat, ghost t: nat, ghost g0: nat, ghost s0: nat)
      returns (more: bool, glitchStart: nat, ghost g: nat, ghost s: nat)
      requires statusLen >= 2 && IsGlitch(ev, statusLen) && usb.log == before + [ev] && t0 <= t <= usb.ticks
      requires from <= |before| && AllWait(before, from, statusLen)
      requires glitchSince != 0 ==> GlitchesFrom(before, from, statusLen, usb.clock, t0, t, g0, s0, glitchSince)
      modifies usb`ticks
      ensures usb.ticks == old(usb.ticks) + 1
      ensures more && glitchStart != 0 ==>
                GlitchesFrom(usb.log, from, statusLen, usb.clock, t0, usb.ticks, g, s, glitchStart)
      ensures !more ==> WaitEnds(usb.log, from, statusLen, usb.clock, t0, usb.ticks, us, IoError, [])
    {
      more, glitchStart, g, s := true, glitchSince, g0, s0;
      var now := usb.Now();
      if glitchStart == 0 {
        glitchStart, g, s := now, |usb.log| - 1, usb.ticks - 1;
      } else {
        MoreGlitches(before, ev, from, statusLen, usb.clock, t0, t, usb.ticks, g, s, glitchStart);
        if now < glitchStart || now - glitchStart > GLITCH_BUDGET_NS {
          WaitGlitched(before, ev, from, statusLen, usb.clock, t0, usb.ticks, us, g, s);
          more := false;
        }
      }
    }

    // ----- Firmware pipeline -----

    /** A finish-handshake goes out exactly if a holdoff is recorded, and its result is
        ignored: the record is gone either way, the chip's holdoff only if it was accepted. */
    method ReleaseRfdHoldoffIfPending()
      requires Valid()
      modifies usb`next, usb`log, this`rfdHoldoffPending
      ensures Valid() && !rfdHoldoffPending && E() == old(E())
      ensures if old(rfdHoldoffPending) then
                var ok := Accepts(old(usb.Upcoming(0)), 1);
                && usb.log == old(usb.log) + [FinishEvent(ok)] && usb.next == old(usb.next) + 1
                && C() == old(C()).Finish(ok)
              else usb.log == old(usb.log) && usb.next == old(usb.next)
    {
      if rfdHoldoffPending {
        var _ := WriteRawRegister(REG_AUXMR, AUX_FH);
        rfdHoldoffPending := false;
      }
    }

    method WriteRawRegister(reg: nat, value: byte) returns (rc: Rc)
      modifies usb`next, usb`log
      ensures usb.log == old(usb.log) + [Event.ControlOut(REQ_REG, reg, 0, [value], rc.Ok?)]
      ensures usb.next == old(usb.next) + 1 && (rc.Ok? <==> Accepts(old(usb.Upcoming(0)), 1))
      ensures E() == old(E()) && (!rc.Ok? ==> Codes(rc, usb.Past(1)))
      ensures C() == old(C()).Step(Event.ControlOut(REQ_REG, reg, 0, [value], rc.Ok?), false)
    {
      rc := ControlOut(REQ_REG, reg, 0, [value]);
    }

    method ReadRawRegister(reg: nat) returns (rc: Rc, value: byte)
      modifies usb`next, usb`log
      ensures rc.Ok? ==> usb.log == old(usb.log) + [Event.ControlIn(REQ_REG, reg, 1, [value], true)]
      ensures !rc.Ok? ==>
                value == 0 && exists ok :: usb.log == old(usb.log) + [Event.ControlIn(REQ_REG, reg, 1, [], ok)]
      ensures usb.next == old(usb.next) + 1
      ensures (rc.Ok? <==> Yields(old(usb.Upcoming(0)))) && (rc.Ok? ==> value == old(usb.Upcoming(0)).data[0])
      ensures E() == old(E()) && (!rc.Ok? ==> Codes(rc, usb.Past(1)))
      ensures C() == if reg == REG_DATA then
                       old(C()).Receive(if rc.Ok? then [value] else [], usb.ended(|old(usb.log)|))
                     else old(C())
    {
      var got;
      rc, got := ControlIn(REQ_REG, reg, 1);
      value := 0;
      if rc.Ok? {
        if |got| < 1 {
          return IoError, 0;
        }
        value := got[0];
        assert got == [value];
      }
    }

    /** Arm and hand over; a bulk transfer that fails is followed by a recovery. */
    method HandOver(request: byte, wValue: nat, pipe: Pipe, bytes: seq<byte>, ghost statusLen: nat, timeoutUs: u32)
      returns (rc: Rc, ghost put: nat)
      requires statusLen >= 2 && if request == REQ_BEGIN_CMD then wValue == 1 else wValue == 0 || wValue == 0x100
      requires (request == REQ_BEGIN_WRITE && pipe == DataOut) || (request == REQ_BEGIN_CMD && pipe == CmdOut)
      requires |bytes| <= 0xFFFF_FFFF
      modifies usb`next, usb`log
      ensures old(usb.log) <= usb.log && C() == old(C())
      ensures put <= |bytes| && (rc.Ok? ==> put == |bytes|) && !rc.NoListener?
      ensures pipe == DataOut ==>
        E().data == old(E()).data + Tag(bytes, wValue / 0x100 % 2 == 1)[..put] && E().cmds == old(E()).cmds
      ensures pipe == CmdOut ==> E().cmds == old(E()).cmds + bytes[..put] && E().data == old(E()).data
      ensures !rc.Ok? ==> ArmRefused(usb.log, request) || BulkFailed(usb.log, pipe)
      ensures !rc.Ok? ==> FailureCode(rc, usb.log, request, pipe, statusLen, usb.Past(1), usb.Past(2))
      ensures Orderly(usb.log, |old(usb.log)|, request, pipe, statusLen, timeoutUs)
      ensures rc.Ok? ==> AllPlain(usb.log, |old(usb.log)|, |usb.log|, request, pipe, statusLen, timeoutUs)
    {
      put := 0;
      HeaderRoundTrip(|bytes|, timeoutUs);
      rc := BeginTransfer(request, wValue, 0, |bytes|, timeoutUs);
      assert IsArming(usb.log[|old(usb.log)|], request, timeoutUs);
      if !rc.Ok? {
        return;
      }
      rc, put := BulkOut(pipe, bytes, timeoutUs);
      if !rc.Ok? {
        RecoverAfterBulk(rc, |old(usb.log)|, request, pipe, statusLen, timeoutUs);
      }
    }

    /** The recovery after a bad bulk transfer. */
    method RecoverAfterBulk(ghost rc: Rc, ghost from: nat, ghost request: byte, ghost pipe: Pipe, ghost len: nat,
                            ghost us: u32)
      requires len >= 2 && from < |usb.log| && IsBadBulk(usb.log[|usb.log| - 1], pipe) && Codes(rc, usb.Past(1))
      requires AllPlain(usb.log, from, |usb.log|, request, pipe, len, us)
      modifies usb`next, usb`log
      ensures old(usb.log) <= usb.log && C() == old(C()) && BulkFailed(usb.log, pipe)
      ensures E().data == old(E()).data && E().cmds == old(E()).cmds
      ensures FailureCode(rc, usb.log, request, pipe, len, usb.Past(1), usb.Past(2))
      ensures Orderly(usb.log, from, request, pipe, len, us)
    {
      ghost var before := usb.log;
      RecoverFirmwareEngine();
      assert usb.log[|usb.log| - 5] == before[|before| - 1];
      assert forall k :: 0 <= k < |before| ==> usb.log[k] == before[k];
    }

    /** Arm, hand over, wait for the count: one chunk of either kind. */
    method ArmedTransfer(request: byte, wValue: nat, pipe: Pipe, bytes: seq<byte>,
                         statusLen: nat, width: nat, timeoutUs: u32)
      returns (rc: Rc, count: nat, ghost put: nat)
      requires (request == REQ_BEGIN_WRITE && pipe == DataOut) || (request == REQ_BEGIN_CMD && pipe == CmdOut)
      requires |bytes| <= 0xFFFF_FFFF && 6 <= statusLen <= 16 && (width == 2 || width == 4)
      requires if request == REQ_BEGIN_CMD then wValue == 1 else wValue == 0 || wValue == 0x100
      modifies usb`next, usb`log, usb`ticks
      ensures old(usb.log) <= usb.log && old(usb.ticks) <= usb.ticks && C() == old(C())
      ensures put <= |bytes| && (rc.Ok? ==> put == |bytes|)
      ensures pipe == DataOut ==>
        E().data == old(E()).data + Tag(bytes, wValue / 0x100 % 2 == 1)[..put] && E().cmds == old(E()).cmds
      ensures pipe == CmdOut ==> E().cmds == old(E()).cmds + bytes[..put] && E().data == old(E()).data
      ensures count < 0x1_0000_0000 && !rc.NoListener?
      ensures if rc.Ok? then Counted(usb.log, statusLen, width, count)
              else Failed(rc, |old(usb.log)|, old(usb.ticks), request, pipe, statusLen, timeoutUs)
      ensures Orderly(usb.log, |old(usb.log)|, request, pipe, statusLen, timeoutUs)
    {
      count := 0;
      rc, put := HandOver(request, wValue, pipe, bytes, statusLen, timeoutUs);
      if !rc.Ok? {
        return;
      }
      ghost var before, from, waited := usb.log, |usb.log|, usb.ticks;
      var status;
      rc, count, status := PollStatus(statusLen, width, timeoutUs);
      OrderlyWait(before, usb.log, |old(usb.log)|, usb.clock, waited, usb.ticks, rc, status,
                  request, pipe, statusLen, timeoutUs);
      if !rc.Ok? {
        WaitFailedSince(usb.log, |old(usb.log)|, from, statusLen, usb.clock, old(usb.ticks), usb.ticks,
                        timeoutUs, rc, status);
        WaitCode(usb.log, from, statusLen, usb.clock, waited, usb.ticks, timeoutUs, rc, status,
                 request, pipe, usb.Past(1), usb.Past(2));
      }
    }

    /** A transfer that began at event `from` and clock reading `t0` has failed, with the code of
        the cause. */
    ghost predicate Failed(rc: Rc, from: nat, t0: nat, request: byte, pipe: Pipe, len: nat, us: u32)
      requires len >= 2
      reads usb
    {
      && TransferFailed(usb.log, from, request, pipe, len, usb.clock, t0, usb.ticks, us)
      && usb.log != [] && FailureCode(rc, usb.log, request, pipe, len, usb.Past(1), usb.Past(2))
    }

    /** What a transfer in chunks reports, and why: the last chunk was done with its own count,
        with another, or not at all. */
    ghost predicate Outcome(rc: Rc, from: nat, t0: nat, request: byte, pipe: Pipe, len: nat, width: nat,
                            chunk: nat, us: u32)
      requires len >= 6 && width <= 4 && chunk < 0x1_0000_0000
      reads usb
    {
      if rc.Ok? then Counted(usb.log, len, width, chunk)
      else if rc.NoListener? then Miscounted(usb.log, len, width, chunk)
      else Failed(rc, from, t0, request, pipe, len, us)
    }

    /** The three are told apart by the log alone. */
    lemma OutcomeExact(rc: Rc, from: nat, t0: nat, request: byte, pipe: Pipe, len: nat, width: nat, chunk: nat, us: u32)
      requires len >= 6 && width <= 4 && chunk < 0x1_0000_0000
      requires Outcome(rc, from, t0, request, pipe, len, width, chunk, us)
      ensures rc.NoListener? <==> Miscounted(usb.log, len, width, chunk)
      ensures rc.Ok? <==> Counted(usb.log, len, width, chunk)
      ensures !rc.Ok? && !rc.NoListener? <==>
                TransferFailed(usb.log, from, request, pipe, len, usb.clock, t0, usb.ticks, us)
    {
      if usb.log != [] && IsDone(usb.log[|usb.log| - 1], len) {
        DoneIsNoFailure(usb.log, from, request, pipe, len, usb.clock, t0, usb.ticks, us);
      }
    }

    /** Command bytes reach the bus in order and without gaps, all of them on success, which is
        that the last chunk was done with its own length for a count. With another count nobody
        listened; otherwise the call failed, with the code of the cause. */
    method SendCommandBytesViaFirmware(cmds: seq<byte>) returns (rc: Rc, ghost placed: nat)
      requires Valid() && |cmds| <= 0xFFFF_FFFF
      modifies usb`next, usb`log, usb`ticks, this`rfdHoldoffPending
      ensures Valid() && old(usb.log) <= usb.log
      ensures placed <= |cmds| && (rc.Ok? ==> placed == |cmds|)
      ensures E().cmds == old(E()).cmds + cmds[..placed] && E().data == old(E()).data
      ensures cmds == [] ==> rc.Ok?
      ensures cmds != [] ==>
        var chunk := LastChunk(placed, MAX_CMD_BYTES);
        && (rc.Ok? <==> Counted(usb.log, STATUS_LEN_CMD, COUNT_WIDTH_CMD, chunk))
        && (rc.NoListener? <==> Miscounted(usb.log, STATUS_LEN_CMD, COUNT_WIDTH_CMD, chunk))
        && (!rc.Ok? && !rc.NoListener? <==>
              TransferFailed(usb.log, |old(usb.log)|, REQ_BEGIN_CMD, CmdOut, STATUS_LEN_CMD,
                             usb.clock, old(usb.ticks), usb.ticks, CMD_TIMEOUT))
        && (!rc.Ok? && !rc.NoListener? ==>
              FailureCode(rc, usb.log, REQ_BEGIN_CMD, CmdOut, STATUS_LEN_CMD, usb.Past(1), usb.Past(2)))
      ensures cmds != [] ==> Released(old(usb.log), usb.log, old(rfdHoldoffPending), old(C()), old(usb.Upcoming(0)))
      ensures cmds != [] ==>
        Orderly(usb.log, |old(usb.log)| + (if old(rfdHoldoffPending) then 1 else 0), REQ_BEGIN_CMD, CmdOut,
                STATUS_LEN_CMD, CMD_TIMEOUT)
      ensures cmds == [] ==> usb.log == old(usb.log) && rfdHoldoffPending == old(rfdHoldoffPending)
    {
      placed := 0;
      if |cmds| == 0 {
        return Ok, 0;
      }
      ReleaseRfdHoldoffIfPending();
      rc, placed := SendChunks(cmds, |old(usb.log)|, old(usb.ticks), |usb.log|);
      OutcomeExact(rc, |old(usb.log)|, old(usb.ticks), REQ_BEGIN_CMD, CmdOut, STATUS_LEN_CMD, COUNT_WIDTH_CMD,
                   LastChunk(placed, MAX_CMD_BYTES), CMD_TIMEOUT);
    }

    /** A holdoff that was recorded has been dealt with first, and the record is gone. */
    ghost predicate Released(before: seq<Event>, log: seq<Event>, pending: bool, c0: Chip, reply: Reply)
      reads this, usb
    {
      && !rfdHoldoffPending
      && if pending then
           before + [FinishEvent(Accepts(reply, 1))] <= log && C() == c0.Finish(Accepts(reply, 1))
         else before <= log && C() == c0
    }

    /** The loop over the chunks. */
    method SendChunks(cmds: seq<byte>, ghost from: nat, ghost t0: nat, ghost since: nat)
      returns (rc: Rc, ghost placed: nat)
      requires 0 < |cmds| <= 0xFFFF_FFFF && from <= |usb.log| && t0 <= usb.ticks && since == |usb.log|
      modifies usb`next, usb`log, usb`ticks
      ensures old(usb.log) <= usb.log && C() == old(C())
      ensures placed <= |cmds| && (rc.Ok? ==> placed == |cmds|)
      ensures E().cmds == old(E()).cmds + cmds[..placed] && E().data == old(E()).data
      ensures Outcome(rc, from, t0, REQ_BEGIN_CMD, CmdOut, STATUS_LEN_CMD, COUNT_WIDTH_CMD,
                      LastChunk(placed, MAX_CMD_BYTES), CMD_TIMEOUT)
      ensures Orderly(usb.log, since, REQ_BEGIN_CMD, CmdOut, STATUS_LEN_CMD, CMD_TIMEOUT)
    {
      ghost var c0 := E().cmds;
      var done := 0;
      placed := 0;
      while done < |cmds|
        invariant placed == done <= |cmds| && old(usb.log) <= usb.log && t0 <= usb.ticks && C() == old(C())
        invariant E().cmds == c0 + cmds[..done] && E().data == old(E()).data
        invariant done < |cmds| ==> WholeChunks(done, MAX_CMD_BYTES)
        invariant done > 0 ==> Counted(usb.log, STATUS_LEN_CMD, COUNT_WIDTH_CMD, LastChunk(done, MAX_CMD_BYTES))
        invariant since <= |usb.log|
        invariant AllPlain(usb.log, since, |usb.log|, REQ_BEGIN_CMD, CmdOut, STATUS_LEN_CMD, CMD_TIMEOUT)
      {
        var chunk := Min(|cmds| - done, MAX_CMD_BYTES);
        var count;
        rc, count, placed := SendChunk(cmds, done, chunk, c0, from, t0, since);
        if !rc.Ok? {
          return;
        }
        ChunkDone(usb.log, STATUS_LEN_CMD, COUNT_WIDTH_CMD, done, count, chunk, MAX_CMD_BYTES);
        if count != chunk {
          return NoListener, placed;
        }
        done := done + chunk;
      }
      rc := Ok;
    }

    /** One armed chunk of commands. */
    method SendChunk(cmds: seq<byte>, done: nat, chunk: nat, ghost c0: seq<byte>, ghost from: nat, ghost t0: nat,
                     ghost since: nat)
      returns (rc: Rc, count: nat, ghost placed: nat)
      requires done + chunk <= |cmds| <= 0xFFFF_FFFF && 0 < chunk <= MAX_CMD_BYTES
      requires E().cmds == c0 + cmds[..done] && from <= |usb.log| && t0 <= usb.ticks && since <= |usb.log|
      requires AllPlain(usb.log, since, |usb.log|, REQ_BEGIN_CMD, CmdOut, STATUS_LEN_CMD, CMD_TIMEOUT)
      modifies usb`next, usb`log, usb`ticks
      ensures old(usb.log) <= usb.log && old(usb.ticks) <= usb.ticks && C() == old(C())
      ensures done <= placed <= done + chunk && (rc.Ok? ==> placed == done + chunk)
      ensures E().cmds == c0 + cmds[..placed] && E().data == old(E()).data
      ensures count < 0x1_0000_0000 && !rc.NoListener?
      ensures if rc.Ok? then Counted(usb.log, STATUS_LEN_CMD, COUNT_WIDTH_CMD, count)
              else Failed(rc, from, t0, REQ_BEGIN_CMD, CmdOut, STATUS_LEN_CMD, CMD_TIMEOUT)
      ensures Orderly(usb.log, since, REQ_BEGIN_CMD, CmdOut, STATUS_LEN_CMD, CMD_TIMEOUT)
      ensures rc.Ok? ==> AllPlain(usb.log, since, |usb.log|, REQ_BEGIN_CMD, CmdOut, STATUS_LEN_CMD, CMD_TIMEOUT)
    {
      ghost var put;
      rc, count, put := ArmedTransfer(REQ_BEGIN_CMD, CMD_SYSTEM_CONTROLLER, CmdOut, cmds[done..done + chunk],
                                      STATUS_LEN_CMD, COUNT_WIDTH_CMD, CMD_TIMEOUT);
      if !rc.Ok? {
        FailedSince(usb.log, from, |old(usb.log)|, REQ_BEGIN_CMD, CmdOut, STATUS_LEN_CMD,
                    usb.clock, t0, old(usb.ticks), usb.ticks, CMD_TIMEOUT);
      }
      OrderlyOn(old(usb.log), usb.log, since, REQ_BEGIN_CMD, CmdOut, STATUS_LEN_CMD, CMD_TIMEOUT);
      placed := done + put;
      PrefixNext(cmds, done, chunk, put);
      Associative(c0, cmds[..done], cmds[done..done + chunk][..put]);
    }

    /** Whatever the chunk size, whatever the pattern of short transfers: what goes on the
        bus is always a prefix of the message with EOI exactly on its last byte if asked
        for, and the whole message if the write succeeds, which is that its last chunk was done
        with its own length for a count. With another count nobody listened; otherwise the write
        failed, with the code of the cause. */
    method WriteDataViaFirmware(buf: seq<byte>, sendEoi: bool, timeoutUs: u32)
      returns (rc: Rc, written: u32, ghost placed: nat)
      requires Valid() && |buf| <= 0xFFFF_FFFF
      modifies usb`next, usb`log, usb`ticks, this`rfdHoldoffPending
      ensures Valid() && old(usb.log) <= usb.log
      ensures placed <= |buf| && (rc.Ok? ==> placed == |buf| == written)
      ensures E().data == old(E()).data + Tag(buf, sendEoi)[..placed] && E().cmds == old(E()).cmds
      ensures buf == [] ==> rc.Ok?
      ensures buf != [] ==>
        var chunk := LastChunk(placed, maxDataChunk);
        && (rc.Ok? <==> Counted(usb.log, STATUS_LEN_WRITE, COUNT_WIDTH_DATA, chunk))
        && (rc.NoListener? <==> Miscounted(usb.log, STATUS_LEN_WRITE, COUNT_WIDTH_DATA, chunk))
        && (!rc.Ok? && !rc.NoListener? <==>
              TransferFailed(usb.log, |old(usb.log)|, REQ_BEGIN_WRITE, DataOut, STATUS_LEN_WRITE,
                             usb.clock, old(usb.ticks), usb.ticks, timeoutUs))
        && (!rc.Ok? && !rc.NoListener? ==>
              FailureCode(rc, usb.log, REQ_BEGIN_WRITE, DataOut, STATUS_LEN_WRITE, usb.Past(1), usb.Past(2)))
      ensures buf != [] ==> Released(old(usb.log), usb.log, old(rfdHoldoffPending), old(C()), old(usb.Upcoming(0)))
      ensures buf != [] ==>
        Orderly(usb.log, |old(usb.log)| + (if old(rfdHoldoffPending) then 1 else 0), REQ_BEGIN_WRITE, DataOut,
                STATUS_LEN_WRITE, timeoutUs)
      ensures buf == [] ==> usb.log == old(usb.log) && rfdHoldoffPending == old(rfdHoldoffPending)
    {
      written, placed := 0, 0;
      if |buf| == 0 {
        return Ok, 0, 0;
      }
      ReleaseRfdHoldoffIfPending();
      rc, written, placed := WriteChunks(buf, sendEoi, timeoutUs, |old(usb.log)|, old(usb.ticks), |usb.log|);
      OutcomeExact(rc, |old(usb.log)|, old(usb.ticks), REQ_BEGIN_WRITE, DataOut, STATUS_LEN_WRITE, COUNT_WIDTH_DATA,
                   LastChunk(placed, maxDataChunk), timeoutUs);
    }

    /** The loop over the chunks. */
    method WriteChunks(buf: seq<byte>, sendEoi: bool, timeoutUs: u32, ghost from: nat, ghost t0: nat, ghost since: nat)
      returns (rc: Rc, written: u32, ghost placed: nat)
      requires 0 < |buf| <= 0xFFFF_FFFF && from <= |usb.log| && t0 <= usb.ticks && since == |usb.log|
      modifies usb`next, usb`log, usb`ticks
      ensures old(usb.log) <= usb.log && C() == old(C())
      ensures placed <= |buf| && (rc.Ok? ==> placed == |buf| == written)
      ensures E().data == old(E()).data + Tag(buf, sendEoi)[..placed] && E().cmds == old(E()).cmds
      ensures Outcome(rc, from, t0, REQ_BEGIN_WRITE, DataOut, STATUS_LEN_WRITE, COUNT_WIDTH_DATA,
                      LastChunk(placed, maxDataChunk), timeoutUs)
      ensures Orderly(usb.log, since, REQ_BEGIN_WRITE, DataOut, STATUS_LEN_WRITE, timeoutUs)
    {
      ghost var d0 := E().data;
      var done := 0;
      written, placed := 0, 0;
      while done < |buf|
        invariant placed == done == written <= |buf| && C() == old(C())
        invariant old(usb.log) <= usb.log && t0 <= usb.ticks
        invariant E().data == d0 + Tag(buf, sendEoi)[..done] && E().cmds == old(E()).cmds
        invariant done < |buf| ==> WholeChunks(done, maxDataChunk)
        invariant done > 0 ==> Counted(usb.log, STATUS_LEN_WRITE, COUNT_WIDTH_DATA, LastChunk(done, maxDataChunk))
        invariant since <= |usb.log|
        invariant AllPlain(usb.log, since, |usb.log|, REQ_BEGIN_WRITE, DataOut, STATUS_LEN_WRITE, timeoutUs)
      {
        var chunk := |buf| - done;
        if maxDataChunk != 0 && chunk > maxDataChunk {
          chunk := maxDataChunk;
        }
        rc, written, placed := WriteNext(buf, done, chunk, sendEoi, timeoutUs, d0, from, t0, since);
        if !rc.Ok? {
          return;
        }
        done := done + chunk;
      }
      rc := Ok;
    }

    /** One turn of the loop: a chunk done with another count than its own means that nobody
        listened. */
    method WriteNext(buf: seq<byte>, done: nat, chunk: nat, sendEoi: bool, timeoutUs: u32,
                     ghost d0: seq<BusByte>, ghost from: nat, ghost t0: nat, ghost since: nat)
      returns (rc: Rc, written: u32, ghost placed: nat)
      requires done + chunk <= |buf| <= 0xFFFF_FFFF
      requires WholeChunks(done, maxDataChunk) && 0 < chunk && (maxDataChunk == 0 || chunk <= maxDataChunk)
      requires E().data == d0 + Tag(buf, sendEoi)[..done] && from <= |usb.log| && t0 <= usb.ticks && since <= |usb.log|
      requires AllPlain(usb.log, since, |usb.log|, REQ_BEGIN_WRITE, DataOut, STATUS_LEN_WRITE, timeoutUs)
      modifies usb`next, usb`log, usb`ticks
      ensures old(usb.log) <= usb.log && old(usb.ticks) <= usb.ticks && C() == old(C())
      ensures done <= placed <= done + chunk && (rc.Ok? ==> placed == written == done + chunk)
      ensures E().data == d0 + Tag(buf, sendEoi)[..placed] && E().cmds == old(E()).cmds
      ensures chunk == maxDataChunk ==> WholeChunks(done + chunk, maxDataChunk)
      ensures Outcome(rc, from, t0, REQ_BEGIN_WRITE, DataOut, STATUS_LEN_WRITE, COUNT_WIDTH_DATA,
                      LastChunk(placed, maxDataChunk), timeoutUs)
      ensures Orderly(usb.log, since, REQ_BEGIN_WRITE, DataOut, STATUS_LEN_WRITE, timeoutUs)
      ensures rc.Ok? ==> AllPlain(usb.log, since, |usb.log|, REQ_BEGIN_WRITE, DataOut, STATUS_LEN_WRITE, timeoutUs)
    {
      var lastChunk := done + chunk == |buf|;
      var count;
      rc, count, placed := WriteChunk(buf, done, chunk, sendEoi && lastChunk, sendEoi, timeoutUs, d0, from, t0, since);
      written := done;
      if rc.Ok? {
        CountAdvances(done, count, chunk);
        written := (done + count) % 0x1_0000_0000;
        if count != chunk {
          rc := NoListener;
        }
      }
    }

    /** EOI is set in the request's second byte, and only ever for the final chunk. */
    method WriteChunk(buf: seq<byte>, done: nat, chunk: nat, eoi: bool,
                      ghost sendEoi: bool, timeoutUs: u32, ghost d0: seq<BusByte>, ghost from: nat, ghost t0: nat,
                      ghost since: nat)
      returns (rc: Rc, count: nat, ghost placed: nat)
      requires done + chunk <= |buf| <= 0xFFFF_FFFF && eoi == (sendEoi && done + chunk == |buf|)
      requires WholeChunks(done, maxDataChunk) && 0 < chunk && (maxDataChunk == 0 || chunk <= maxDataChunk)
      requires E().data == d0 + Tag(buf, sendEoi)[..done] && from <= |usb.log| && t0 <= usb.ticks && since <= |usb.log|
      requires AllPlain(usb.log, since, |usb.log|, REQ_BEGIN_WRITE, DataOut, STATUS_LEN_WRITE, timeoutUs)
      modifies usb`next, usb`log, usb`ticks
      ensures old(usb.log) <= usb.log && old(usb.ticks) <= usb.ticks && C() == old(C())
      ensures done <= placed <= done + chunk && (rc.Ok? ==> placed == done + chunk)
      ensures E().data == d0 + Tag(buf, sendEoi)[..placed] && E().cmds == old(E()).cmds
      ensures count < 0x1_0000_0000 && !rc.NoListener?
      ensures chunk == maxDataChunk ==> WholeChunks(done + chunk, maxDataChunk)
      ensures LastChunk(done + chunk, maxDataChunk) < 0x1_0000_0000
      ensures if !rc.Ok? then Failed(rc, from, t0, REQ_BEGIN_WRITE, DataOut, STATUS_LEN_WRITE, timeoutUs)
              else if count == chunk then
                Counted(usb.log, STATUS_LEN_WRITE, COUNT_WIDTH_DATA, LastChunk(done + chunk, maxDataChunk))
              else Miscounted(usb.log, STATUS_LEN_WRITE, COUNT_WIDTH_DATA, LastChunk(done + chunk, maxDataChunk))
      ensures Orderly(usb.log, since, REQ_BEGIN_WRITE, DataOut, STATUS_LEN_WRITE, timeoutUs)
      ensures rc.Ok? ==> AllPlain(usb.log, since, |usb.log|, REQ_BEGIN_WRITE, DataOut, STATUS_LEN_WRITE, timeoutUs)
    {
      var wValue := if eoi then 0x100 else 0;
      assert (wValue / 0x100 % 2 == 1) == eoi;
      ghost var put;
      rc, count, put := ArmedTransfer(REQ_BEGIN_WRITE, wValue, DataOut, buf[done..done + chunk],
                                      STATUS_LEN_WRITE, COUNT_WIDTH_DATA, timeoutUs);
      if rc.Ok? {
        ChunkDone(usb.log, STATUS_LEN_WRITE, COUNT_WIDTH_DATA, done, count, chunk, maxDataChunk);
      } else {
        FailedSince(usb.log, from, |old(usb.log)|, REQ_BEGIN_WRITE, DataOut, STATUS_LEN_WRITE,
                    usb.clock, t0, old(usb.ticks), usb.ticks, timeoutUs);
      }
      OrderlyOn(old(usb.log), usb.log, since, REQ_BEGIN_WRITE, DataOut, STATUS_LEN_WRITE, timeoutUs);
      NextChunk(done, chunk, maxDataChunk);
      placed := done + put;
      WriteStep(buf, sendEoi, done, chunk, put);
      Associative(d0, Tag(buf, sendEoi)[..done], Tag(buf[done..done + chunk], eoi)[..put]);
    }

    static lemma CountAdvances(done: nat, count: nat, chunk: nat)
      requires count < 0x1_0000_0000 && done + chunk < 0x1_0000_0000
      ensures (done + count) % 0x1_0000_0000 == done + chunk <==> count == chunk
    {
    }

    static lemma PrefixNext(s: seq<byte>, done: nat, chunk: nat, put: nat)
      requires done + chunk <= |s| && put <= chunk
      ensures s[..done] + s[done..done + chunk][..put] == s[..done + put]
    {
    }

    static lemma WriteStep(buf: seq<byte>, eoi: bool, done: nat, chunk: nat, put: nat)
      requires done + chunk <= |buf| && put <= chunk
      ensures Tag(buf, eoi)[..done] + Tag(buf[done..done + chunk], eoi && done + chunk == |buf|)[..put]
              == Tag(buf, eoi)[..done + put]
    {
      TagPart(buf, eoi, done, chunk);
      assert Tag(buf, eoi)[done..done + chunk][..put] == Tag(buf, eoi)[done..done + put];
      TagStep(buf, eoi, done, put);
    }

    static ghost predicate Stored(was: seq<byte>, now: seq<byte>, got: seq<byte>) {
      |got| <= |was| && now == got + was[|got|..]
    }

    static lemma StoredNext(was: seq<byte>, mid: seq<byte>, now: seq<byte>, got: seq<byte>, packet: seq<byte>)
      requires Stored(was, mid, got) && |got| + |packet| <= |was|
      requires now == mid[..|got|] + packet + mid[|got| + |packet|..]
      ensures Stored(was, now, got + packet)
    {
    }

    static ghost predicate FetchedOne(e0: Engine, e: Engine, packet: seq<byte>, empty: bool) {
      e == e0.(fetches := e0.fetches + 1, fetched := e0.fetched + packet,
               emptyFetches := e0.emptyFetches + (if empty then 1 else 0))
    }

    /** The next packet, stored behind the bytes already there. */
    method Fetch(buf: array<byte>, requestCount: nat, timeoutUs: u32,
                 ghost was: seq<byte>, ghost sofar: seq<byte>, done: nat)
      returns (rc: Rc, n: nat, ghost got: seq<byte>)
      requires done == |sofar| < requestCount <= buf.Length && Stored(was, buf[..], sofar) && |was| == buf.Length
      modifies usb`next, usb`log, buf
      ensures Stored(was, buf[..], got) && |got| == done + n <= requestCount && (!rc.Ok? ==> n == 0)
      ensures C() == old(C()) && usb.Left() <= old(usb.Left()) && (!rc.Ok? ==> Codes(rc, usb.Past(1)))
      ensures usb.log == old(usb.log) +
                [Event.BulkIn(DataIn, Min(requestCount - done, 0x1000), MsFromUsec(timeoutUs), got[done..], rc.Ok?)]
      ensures sofar <= got && FetchedOne(old(E()), E(), got[done..], rc.Ok? && n == 0)
    {
      rc, n := BulkIn(buf, done, requestCount - done, timeoutUs);
      ghost var packet := buf[done..done + n];
      got := sofar + packet;
      StoredNext(was, old(buf[..]), buf[..], sofar, packet);
    }

    method TakeStatus() returns (ok: bool, block: seq<byte>)
      modifies usb`next, usb`log
      ensures usb.log == old(usb.log) + [Event.ControlIn(REQ_STATUS, 0, STATUS_LEN_READ, block, ok)]
      ensures E() == old(E()).Status(block, ok) && C() == old(C())
      ensures usb.Left() <= old(usb.Left()) && (ok ==> usb.Left() < old(usb.Left()))
    {
      var rc;
      rc, block := ControlIn(REQ_STATUS, 0, STATUS_LEN_READ);
      ok := rc.Ok?;
    }

    /** Nothing but the counts, the bytes fetched and the last status has changed, with one
        fetch for each byte or empty packet and six polls for each fetch. `slack` polls of
        the current fetch and one byte of room are still unused. */
    static ghost predicate Budget(e0: Engine, e: Engine, got: seq<byte>, slack: nat) {
      && e.fetched == e0.fetched + got && e.data == e0.data && e.cmds == e0.cmds
      && e0.emptyFetches <= e.emptyFetches
      && e.fetches - e0.fetches <= |got| + (e.emptyFetches - e0.emptyFetches)
      && e.polls - e0.polls + slack <= 6 * (e.fetches - e0.fetches)
    }

    /** The budget of a whole read of `requestCount` bytes. */
    static ghost predicate Spent(e0: Engine, e: Engine, got: seq<byte>, requestCount: nat) {
      && e.fetched == e0.fetched + got && e.data == e0.data && e.cmds == e0.cmds
      && e.fetches - e0.fetches <= requestCount + (e.emptyFetches - e0.emptyFetches)
      && e.polls - e0.polls <= 6 * (e.fetches - e0.fetches)
    }

    /** A packet paid for out of the budget; if it cannot be had, the engine is recovered. */
    method FetchPacket(buf: array<byte>, requestCount: nat, timeoutUs: u32, ghost e0: Engine, ghost was: seq<byte>,
                       ghost sofar: seq<byte>, done: nat, ghost from: nat)
      returns (rc: Rc, n: nat, ghost got: seq<byte>)
      requires done == |sofar| < requestCount <= buf.Length && Stored(was, buf[..], sofar) && |was| == buf.Length
      requires Budget(e0, E(), sofar, 0) && MayFetch(usb.log, from)
      modifies usb`next, usb`log, buf
      ensures Stored(was, buf[..], got) && |got| == done + n <= requestCount && C() == old(C())
      ensures if rc.Ok? then Budget(e0, E(), got, 6) else Spent(e0, E(), got, requestCount) && !E().readPending
      ensures usb.Left() <= old(usb.Left()) && old(usb.log) < usb.log
      ensures if rc.Ok? then usb.log[|usb.log| - 1].BulkIn?
              else ReadFailed(usb.log) && ReadCode(rc, usb.log, usb.Past(1), usb.Past(2))
      ensures ReadsOrderly(usb.log, from) && (rc.Ok? ==> ReadsInTurn(usb.log, from, |usb.log|))
    {
      rc, n, got := Fetch(buf, requestCount, timeoutUs, was, sofar, done);
      assert got == sofar + got[done..];
      Associative(e0.fetched, sofar, got[done..]);
      OneTurn(old(usb.log), usb.log, from);
      if !rc.Ok? {
        RecoverAfterFetch(rc, from);
      }
    }

    /** The recovery after a failed bulk-in. */
    method RecoverAfterFetch(ghost rc: Rc, ghost from: nat)
      requires usb.log != [] && usb.log[|usb.log| - 1].BulkIn? && !usb.log[|usb.log| - 1].ok && Codes(rc, usb.Past(1))
      requires ReadsInTurn(usb.log, from, |usb.log|)
      modifies usb`next, usb`log
      ensures old(usb.log) <= usb.log && C() == old(C()) && usb.Left() <= old(usb.Left())
      ensures E() == old(E()).(armed := 0, cmdArmed := 0, readPending := false)
      ensures ReadFailed(usb.log) && ReadCode(rc, usb.log, usb.Past(1), usb.Past(2)) && ReadsOrderly(usb.log, from)
    {
      ghost var before := usb.log;
      RecoverFirmwareEngine();
      assert usb.log[|usb.log| - 5] == before[|before| - 1];
      RecoveredInTurn(before, usb.log, from);
    }

    /** A bulk-in is due: at the start, and while the engine says that it is busy. */
    static ghost predicate MayFetch(log: seq<Event>, from: nat) {
      from <= |log| && ReadsInTurn(log, from, |log|) && (|log| == from || IsBusyRead(log[|log| - 1]))
    }

    /** A status that ends a read without success, and the recovery after it. */
    method Bail(ghost from: nat)
      requires ReadsInTurn(usb.log, from, |usb.log|)
      requires usb.log != [] && (GlitchesBefore(usb.log, |usb.log|, 6) || IsReadError(usb.log[|usb.log| - 1]))
      modifies usb`next, usb`log
      ensures ReadFailed(usb.log) && old(usb.log) <= usb.log && |usb.log| == |old(usb.log)| + 4
      ensures usb.log[|usb.log| - 1] == ClearStall(DataIn) && ReadsOrderly(usb.log, from)
      ensures E() == old(E()).(armed := 0, cmdArmed := 0, readPending := false) && C() == old(C())
    {
      ghost var before := usb.log;
      RecoverFirmwareEngine();
      assert forall k :: 0 <= k < |before| ==> usb.log[k] == before[k];
      if GlitchesBefore(before, |before|, 6) {
        assert GlitchesBefore(usb.log, |before|, 6);
      }
      RecoveredInTurn(before, usb.log, from);
    }

    /** The buffer is full and the engine still busy: stop it. That is no failure. */
    method StopFull(ghost from: nat)
      requires ReadsInTurn(usb.log, from, |usb.log|)
      requires usb.log != [] && IsBusyRead(usb.log[|usb.log| - 1])
      modifies usb`next, usb`log
      ensures !ReadFailed(usb.log) && old(usb.log) <= usb.log && usb.log[|usb.log| - 1] == ClearStall(DataIn)
      ensures ReadsOrderly(usb.log, from)
      ensures E() == old(E()).(armed := 0, cmdArmed := 0, readPending := false) && C() == old(C())
    {
      ghost var before := usb.log;
      RecoverFirmwareEngine();
      assert usb.log[|usb.log| - 5] == before[|before| - 1];
      RecoveredInTurn(before, usb.log, from);
    }

    /** One status poll of a read with `done` bytes so far, and what follows from it. */
    method JudgeStatus(requestCount: nat, done: nat, glitches: nat, ghost e0: Engine, ghost got: seq<byte>,
                       ghost from: nat) returns (verdict: Verdict, status: seq<byte>)
      requires done == |got| <= requestCount && glitches <= 5 && Budget(e0, E(), got, 6 - glitches)
      requires GlitchesBefore(usb.log, |usb.log|, glitches)
      requires from < |usb.log| && ReadsInTurn(usb.log, from, |usb.log|)
      modifies usb`next, usb`log
      ensures old(usb.log) < usb.log && C() == old(C())
      ensures Judged(verdict, status, e0, got, requestCount, glitches, from)
      ensures verdict.Retry? ==> usb.Left() <= old(usb.Left())
      ensures verdict.FetchMore? ==> usb.Left() < old(usb.Left())
    {
      ghost var before := usb.log;
      var ok;
      ok, status := TakeStatus();
      OneTurn(before, usb.log, from);
      if !ok || |status| < STATUS_MIN_READ {
        OneGlitchMore(before, Event.ControlIn(REQ_STATUS, 0, STATUS_LEN_READ, status, ok), glitches);
        verdict := JudgeGlitch(requestCount, glitches, e0, got, from, status);
      } else {
        verdict := JudgeAnswer(requestCount, done, glitches, e0, got, from, status);
      }
    }

    /** What the verdict stands for. */
    ghost predicate Judged(verdict: Verdict, status: seq<byte>, e0: Engine, got: seq<byte>, requestCount: nat,
                           glitches: nat, from: nat)
      requires glitches <= 5
      reads usb
    {
      match verdict
      case Retry =>
        && glitches < 5 && GlitchesBefore(usb.log, |usb.log|, glitches + 1) && Budget(e0, E(), got, 5 - glitches)
        && from < |usb.log| && ReadsInTurn(usb.log, from, |usb.log|)
      case FetchMore => |got| < requestCount && Budget(e0, E(), got, 0) && from < |usb.log| && MayFetch(usb.log, from)
      case Over(rc) => Concluded(rc, status, e0, got, requestCount) && ReadsOrderly(usb.log, from)
    }

    /** A glitch: five are borne in a row, the sixth ends the read. */
    method JudgeGlitch(ghost requestCount: nat, glitches: nat, ghost e0: Engine, ghost got: seq<byte>, ghost from: nat,
                       ghost status: seq<byte>)
      returns (verdict: Verdict)
      requires |got| <= requestCount && glitches <= 5 && Budget(e0, E(), got, 5 - glitches)
      requires GlitchesBefore(usb.log, |usb.log|, glitches + 1)
      requires from < |usb.log| && ReadsInTurn(usb.log, from, |usb.log|)
      modifies usb`next, usb`log
      ensures old(usb.log) <= usb.log && C() == old(C()) && (verdict.Retry? ==> usb.Left() == old(usb.Left()))
      ensures !verdict.FetchMore? && Judged(verdict, status, e0, got, requestCount, glitches, from)
    {
      if glitches < 5 {
        return Retry;
      }
      Bail(from);
      verdict := Over(IoError);
    }

    /** A full status: done, failed, or still busy, and then there may be no room left. */
    method JudgeAnswer(requestCount: nat, done: nat, ghost glitches: nat, ghost e0: Engine, ghost got: seq<byte>,
                       ghost from: nat, status: seq<byte>)
      returns (verdict: Verdict)
      requires done == |got| <= requestCount && glitches <= 5 && Budget(e0, E(), got, 5 - glitches)
      requires |status| >= STATUS_MIN_READ && E().accepted == status && (status[0] == STATE_DONE ==> !E().readPending)
      requires from < |usb.log| && ReadsInTurn(usb.log, from, |usb.log|)
      requires usb.log[|usb.log| - 1] == Event.ControlIn(REQ_STATUS, 0, STATUS_LEN_READ, status, true)
      modifies usb`next, usb`log
      ensures old(usb.log) <= usb.log && C() == old(C()) && (verdict.FetchMore? ==> usb.Left() == old(usb.Left()))
      ensures !verdict.Retry? && Judged(verdict, status, e0, got, requestCount, glitches, from)
    {
      if status[0] == STATE_DONE {
        return Over(Ok);
      }
      if status[0] != STATE_BUSY {
        Bail(from);
        return Over(if status[1] == ERR_ABORTED then Rc.TimedOut else IoError);
      }
      if done >= requestCount {
        StopFull(from);
        return Over(Ok);
      }
      verdict := FetchMore;
    }

    /** The state of the engine and the log when a read is over. */
    ghost predicate Concluded(rc: Rc, status: seq<byte>, e0: Engine, got: seq<byte>, requestCount: nat)
      reads usb
    {
      && usb.log != [] && (rc.Ok? <==> !ReadFailed(usb.log)) && !usb.log[|usb.log| - 1].ControlOut?
      && (!rc.Ok? ==> ReadCode(rc, usb.log, usb.Past(1), usb.Past(2)))
      && !E().readPending && Spent(e0, E(), got, requestCount)
      && (rc.Ok? ==> |status| >= STATUS_MIN_READ && E().accepted == status)
    }

    /** The read loop: one packet, then status; back for more only while the engine is busy
        and there is room. */
    method Drain(buf: array<byte>, requestCount: u32, timeoutUs: u32)
      returns (rc: Rc, status: seq<byte>, done: nat, ghost got: seq<byte>)
      requires 0 < requestCount <= buf.Length
      modifies usb`next, usb`log, buf
      ensures old(usb.log) < usb.log && C() == old(C()) && Concluded(rc, status, old(E()), got, requestCount)
      ensures Stored(old(buf[..]), buf[..], got) && done == |got| <= requestCount
      ensures ReadsOrderly(usb.log, |old(usb.log)|)
    {
      ghost var e0, was, from := E(), buf[..], |usb.log|;
      var glitchRetries := 0;
      var needData := true;
      done, got, status := 0, [], [];
      while true
        invariant done == |got| <= requestCount && Stored(was, buf[..], got)
        invariant glitchRetries <= 5 && GlitchesBefore(usb.log, |usb.log|, glitchRetries)
        invariant Budget(e0, E(), got, if needData then 0 else 6 - glitchRetries)
        invariant C() == old(C()) && old(usb.log) <= usb.log && ReadsInTurn(usb.log, from, |usb.log|)
        invariant if needData then done < requestCount && glitchRetries == 0 && MayFetch(usb.log, from)
                  else |usb.log| > from
        decreases usb.Left(), 6 - glitchRetries
      {
        if needData && done < requestCount {
          var n;
          rc, n, got := FetchPacket(buf, requestCount, timeoutUs, e0, was, got, done, from);
          done := done + n;
          if !rc.Ok? {
            return;
          }
        }
        needData := false;
        var verdict;
        verdict, status := JudgeStatus(requestCount, done, glitchRetries, e0, got, from);
        if verdict.Over? {
          return verdict.rc, status, done, got;
        }
        glitchRetries := if verdict.Retry? then glitchRetries + 1 else 0;
        needData := verdict.FetchMore?;
      }
    }

    /** For every device: the bytes returned are a prefix of the bulk-in packets put end to
        end, nothing is stored past the request, the count and END are those of the last
        accepted status block, and once armed the read is never left pending. There are at
        most as many bulk-ins as bytes asked for, plus one for every empty packet, and at
        most six status polls for each. The read fails exactly if its arming was refused, a
        bulk-in failed, six status polls in a row glitched, or the status reported an error. */
    method ReadDataViaFirmware(buf: array<byte>, requestCount: u32, eosChar: byte, eosFlags: byte, timeoutUs: u32)
      returns (rc: Rc, bytesRead: nat, end: byte, ghost got: seq<byte>)
      requires requestCount <= buf.Length
      modifies usb`next, usb`log, buf
      ensures requestCount == 0 ==> rc.Ok?
      ensures requestCount > 0 ==> (rc.Ok? <==> !ArmRefused(usb.log, REQ_BEGIN_READ) && !ReadFailed(usb.log))
      ensures !rc.Ok? ==> ReadCode(rc, usb.log, usb.Past(1), usb.Past(2))
      ensures requestCount > 0 ==> old(usb.log) < usb.log
      ensures requestCount > 0 ==>
        if usb.log[|old(usb.log)|] == ArmRead(requestCount, timeoutUs, true)
        then ReadsOrderly(usb.log, |old(usb.log)| + 1) else |usb.log| == |old(usb.log)| + 1
      ensures requestCount > 0 ==> ArmedRead(old(usb.log), usb.log, requestCount, timeoutUs)
      ensures E().fetched == old(E()).fetched + got && |got| <= requestCount && Stored(old(buf[..]), buf[..], got)
      ensures bytesRead <= |got| && (!rc.Ok? ==> bytesRead == 0 && end == 0)
      ensures rc.Ok? && requestCount > 0 ==>
        && |E().accepted| >= STATUS_MIN_READ
        && bytesRead == Min(Value32(E().accepted[2..6]), |got|)
        && end == (if E().accepted[6] == 1 then 1 else 0)
      ensures old(!E().readPending) ==> !E().readPending
      ensures E().fetches - old(E().fetches) <= requestCount + (E().emptyFetches - old(E().emptyFetches))
      ensures E().polls - old(E().polls) <= 6 * (E().fetches - old(E().fetches))
      ensures E().data == old(E().data) && E().cmds == old(E().cmds) && C() == old(C())
    {
      rc, bytesRead, end, got := Ok, 0, 0, [];
      if requestCount == 0 {
        return;
      }
      var wIndex := if HasBit(eosFlags, REOS) then eosChar else NEWLINE;
      rc := BeginTransfer(REQ_BEGIN_READ, READ_WVALUE, wIndex, requestCount, timeoutUs);
      assert usb.log[|old(usb.log)|] == ArmRead(requestCount, timeoutUs, rc.Ok?);
      if !rc.Ok? {
        return;
      }
      var status, done;
      rc, status, done, got := Drain(buf, requestCount, timeoutUs);
      if !rc.Ok? {
        return;
      }
      var count := Value32(status[2..6]);
      bytesRead := Min(Min(count, requestCount), done);
      end := if status[6] == 1 then 1 else 0;
    }

    /** The arming of a read. It always carries the newline as the EOS character: the flag that
        would put another in its place does not fit the eight bits of the flags. */
    static function ArmRead(requestCount: u32, timeoutUs: u32, ok: bool): Event {
      Event.ControlOut(REQ_BEGIN_READ, READ_WVALUE, NEWLINE, Header(requestCount, timeoutUs), ok)
    }

    /** The first request of a read is its arming. */
    static predicate ArmedRead(was: seq<Event>, log: seq<Event>, requestCount: u32, timeoutUs: u32) {
      was < log && exists ok :: log[|was|] == ArmRead(requestCount, timeoutUs, ok)
    }

    // ----- Register pipeline -----

    /** Poll a status register until `mask` is set (or clear), at most `spins` times. Giving
        up means a failed read, or that many answers without it. */
    method AwaitBit(reg: nat, mask: nat, want: bool, spins: nat) returns (seen: bool, value: byte)
      requires mask > 0 && reg != REG_DATA
      modifies usb`next, usb`log
      ensures C() == old(C()) && E() == old(E())
      ensures OnlyReads(old(usb.log), usb.log, reg)
      ensures seen ==>
                |usb.log| > |old(usb.log)| && usb.log[|usb.log| - 1] == Event.ControlIn(REQ_REG, reg, 1, [value], true)
      ensures seen ==> (HasBit(value, mask) <==> want)
      ensures !seen ==> Unseen(usb.log, reg, mask, want, spins)
      ensures spins > 0 && Shows(old(usb.Upcoming(0)), mask, want) ==>
        seen && usb.next == old(usb.next) + 1 && |usb.log| == |old(usb.log)| + 1
    {
      seen, value := false, 0;
      for spin := 0 to spins
        invariant C() == old(C()) && E() == old(E())
        invariant OnlyReads(old(usb.log), usb.log, reg)
        invariant Starved(usb.log, reg, mask, want, spin)
        invariant |usb.log| == |old(usb.log)| + spin
        invariant if spin == 0 then usb.next == old(usb.next) else !Shows(old(usb.Upcoming(0)), mask, want)
      {
        var rc;
        rc, value := ReadRawRegister(reg);
        if !rc.Ok? {
          return;
        }
        if HasBit(value, mask) == want {
          return true, value;
        }
      }
    }

    /** Command bytes go out in order, with nothing recorded. The chip itself takes them while
        it holds off exactly if it held off before and was not freed on the way in, which
        takes a record to act on and an accepted finish-handshake. */
    method SendCommandBytesViaRegisters(cmds: seq<byte>) returns (rc: Rc, ghost placed: nat)
      requires Valid()
      modifies usb`next, usb`log, this`rfdHoldoffPending
      ensures Valid() && (cmds != [] ==> !rfdHoldoffPending) && old(usb.log) <= usb.log
      ensures placed <= |cmds| && (rc.Ok? ==> placed == |cmds|)
      ensures C().cmds == old(C()).cmds + cmds[..placed] && C().SameData(old(C()))
      ensures C().held == (old(C()).held && !(cmds != [] && old(rfdHoldoffPending) && Accepts(old(usb.Upcoming(0)), 1)))
      ensures C().clean == (old(C()).clean && !(C().held && placed > 0))
      ensures C().honest == (old(C()).honest &&
                !(cmds != [] && old(rfdHoldoffPending) && Accepts(old(usb.Upcoming(0)), 1) && !old(C()).held))
      ensures if cmds == [] then rc.Ok? else rc.Ok? <==> !CommandFailed(usb.log)
      ensures !rc.Ok? ==> CommandCode(rc, usb.log, usb.Past(1))
      ensures cmds != [] && rc.Ok? ==> C().command && C().role == ADMR_TRM
      ensures cmds != [] && old(TakesCommand(usb, if rfdHoldoffPending then 1 else 0)) ==> placed > 0
    {
      placed := 0;
      if |cmds| == 0 {
        return Ok, 0;
      }
      ReleaseRfdHoldoffIfPending();
      rc, placed := DriveCommands(cmds);
    }

    /** Take the command role and send, with the record clear. */
    method DriveCommands(cmds: seq<byte>) returns (rc: Rc, ghost placed: nat)
      requires cmds != [] && !C().recorded
      modifies usb`next, usb`log
      ensures old(usb.log) <= usb.log && placed <= |cmds| && (rc.Ok? ==> placed == |cmds|)
      ensures Drove(old(C()), C(), cmds[..placed]) && (rc.Ok? ==> C().command && C().role == ADMR_TRM)
      ensures (rc.Ok? <==> !CommandFailed(usb.log)) && (!rc.Ok? ==> CommandCode(rc, usb.log, usb.Past(1)))
      ensures old(TakesCommand(usb, 0)) ==> placed > 0
    {
      placed := 0;
      ghost var c0 := C();
      NoneDriven(c0);
      rc := TakeCommandRole();
      if rc.Ok? {
        rc, placed := SendCommandLoop(cmds);
        if rc.Ok? {
          SeenIsNoFailure(usb.log);
        }
      }
    }

    /** Nothing changed but the command bytes, the role, and whether one met a held chip. */
    static predicate Drove(c: Chip, d: Chip, cmds: seq<byte>) {
      d == Commanded(c, cmds).(command := d.command, role := d.role)
    }

    static lemma NoneDriven(c: Chip)
      ensures Drove(c, c, []) && Drove(c, c.(command := true), [])
      ensures Drove(c, c.(command := true, role := ADMR_TRM), [])
    {
      assert c.cmds + [] == c.cmds;
    }

    method SendCommandLoop(cmds: seq<byte>) returns (rc: Rc, ghost placed: nat)
      requires C().command && !C().recorded && C().role == ADMR_TRM
      modifies usb`next, usb`log
      ensures placed <= |cmds| && (rc.Ok? ==> placed == |cmds|) && old(usb.log) <= usb.log
      ensures C() == Commanded(old(C()), cmds[..placed])
      ensures cmds != [] ==> if rc.Ok? then SawCommandOut(usb.log) else CommandFailed(usb.log)
      ensures !rc.Ok? ==> CommandCode(rc, usb.log, usb.Past(1))
      ensures cmds != [] && Accepts(old(usb.Upcoming(0)), 1) ==> placed > 0
    {
      ghost var c0 := C();
      placed := 0;
      for i := 0 to |cmds|
        invariant placed == i && old(usb.log) <= usb.log
        invariant C() == Commanded(c0, cmds[..i])
        invariant if i == 0 then usb.next == old(usb.next) else SawCommandOut(usb.log)
      {
        ghost var wrote;
        rc, wrote := SendCommandByte(cmds[i]);
        CommandedNext(c0, cmds, i);
        placed := if wrote then i + 1 else i;
        if !rc.Ok? {
          return;
        }
      }
      rc := Ok;
    }

    static lemma CommandedNext(c: Chip, cmds: seq<byte>, i: nat)
      requires i < |cmds|
      ensures var d := Commanded(c, cmds[..i]);
              Commanded(c, cmds[..i + 1]) == d.(cmds := d.cmds + [cmds[i]], clean := d.clean && !d.held)
    {
      assert cmds[..i] + [cmds[i]] == cmds[..i + 1];
      Associative(c.cmds, cmds[..i], [cmds[i]]);
    }

    /** Replies `k` to `k` + 3 let the core take control at once and accept a command byte. */
    static predicate TakesCommand(d: Device, k: nat)
      reads d`next
    {
      && Accepts(d.Upcoming(k), 1) && Shows(d.Upcoming(k + 1), ADSR_NATN, false)
      && Accepts(d.Upcoming(k + 2), 1) && Accepts(d.Upcoming(k + 3), 1)
    }

    /** Assert ATN, see that it took, and be neither talker nor listener. */
    method TakeCommandRole() returns (rc: Rc)
      modifies usb`next, usb`log
      ensures E() == old(E()) && old(usb.log) <= usb.log
      ensures !rc.Ok? ==> C() == old(C()) || C() == old(C()).(command := true)
      ensures rc.Ok? ==> C() == old(C()).(command := true, role := ADMR_TRM)
      ensures !rc.Ok? ==> CommandFailed(usb.log) && CommandCode(rc, usb.log, usb.Past(1))
      ensures Accepts(old(usb.Upcoming(0)), 1) && Shows(old(usb.Upcoming(1)), ADSR_NATN, false) &&
              Accepts(old(usb.Upcoming(2)), 1) ==>
        rc.Ok? && usb.next == old(usb.next) + 3
    {
      rc := WriteRawRegister(REG_AUXMR, AUX_TCA);
      if !rc.Ok? {
        return;
      }
      var atn, _ := AwaitBit(REG_ADMR, ADSR_NATN, false, 200);
      if !atn {
        return Rc.TimedOut;
      }
      rc := WriteRawRegister(REG_ADMR, ADMR_TRM);
    }

    method SendCommandByte(b: byte) returns (rc: Rc, ghost wrote: bool)
      requires C().command && !C().recorded && C().role == ADMR_TRM
      modifies usb`next, usb`log
      ensures rc.Ok? ==> wrote
      ensures old(usb.log) <= usb.log
      ensures wrote <==> Accepts(old(usb.Upcoming(0)), 1)
      ensures C() ==
                if wrote then old(C()).(cmds := old(C()).cmds + [b], clean := old(C()).clean && !old(C()).held)
                else old(C())
      ensures if rc.Ok? then SawCommandOut(usb.log)
              else CommandFailed(usb.log) && CommandCode(rc, usb.log, usb.Past(1))
    {
      rc := WriteRawRegister(REG_DATA, b);
      wrote := rc.Ok?;
      if rc.Ok? {
        var accepted, _ := AwaitBit(REG_ISR2, ISR2_CO, true, 200);
        rc := if accepted then Ok else NoListener;
      }
    }

    /** Stop being a talker or listener after a bit that did not show. */
    method BeNeutral(ghost spins: nat)
      requires || Unseen(usb.log, REG_ADMR, ADSR_NATN, true, 500) || Unseen(usb.log, REG_ISR1, ISR1_DO, true, spins)
               || Unseen(usb.log, REG_ISR1, ISR1_DI, true, spins)
      modifies usb`next, usb`log
      ensures GaveUp(usb.log, spins) && C().SameButRole(old(C())) && E() == old(E())
      ensures forall reg :: old(usb.log != [] && IsRead(usb.log[|usb.log| - 1], reg)) ==> StarvedOf(usb.log, reg)
      ensures |usb.log| == |old(usb.log)| + 1 && old(usb.log) <= usb.log && !IsDataWrite(usb.log[|usb.log| - 1])
    {
      var _ := WriteRawRegister(REG_ADMR, ADMR_TRM);
      assert usb.log[..|usb.log| - 1] == old(usb.log);
    }

    /** The role was given up right after a read of register `reg`. */
    static predicate StarvedOf(log: seq<Event>, reg: nat) {
      |log| >= 2 && IsNeutral(log[|log| - 1]) && IsRead(log[|log| - 2], reg)
    }

    /** Declare a role and ask for ATN to be released. */
    method AskStandbyAs(role: byte) returns (rc: Rc)
      requires role != ADMR_TRM
      modifies usb`next, usb`log
      ensures E() == old(E()) && old(usb.log) < usb.log && OnlyRoles(usb.log, |old(usb.log)|)
      ensures if rc.Ok? then C() == old(C()).(command := false, role := role) else C().SameButRole(old(C()))
      ensures !rc.Ok? ==> RefusedWrite(usb.log) && !IsDataWrite(usb.log[|usb.log| - 1])
      ensures !rc.Ok? ==> !IsNeutral(usb.log[|usb.log| - 1]) && Codes(rc, usb.Past(1))
      ensures old(Accepts(usb.Upcoming(0), 1) && Accepts(usb.Upcoming(1), 1)) ==>
                rc.Ok? && usb.next == old(usb.next) + 2 && |usb.log| == |old(usb.log)| + 2
    {
      rc := WriteRawRegister(REG_ADMR, role);
      if rc.Ok? {
        rc := WriteRawRegister(REG_AUXMR, AUX_GTS);
      }
    }

    /** Declare a role and release ATN, then see that it is really released. `spins` is for the
        caller's account of a failure only. */
    method EnterStandby(role: byte, ghost spins: nat) returns (rc: Rc)
      requires role != ADMR_TRM
      modifies usb`next, usb`log
      ensures E() == old(E()) && old(usb.log) <= usb.log
      ensures |usb.log| > |old(usb.log)|
      ensures if rc.Ok? then usb.log[|usb.log| - 1].ControlIn? else !IsDataWrite(usb.log[|usb.log| - 1])
      ensures if rc.Ok? then C() == old(C()).(command := false, role := role)
              else C().SameButRole(old(C()).(command := C().command))
      ensures !rc.Ok? ==> RegisterFailed(usb.log, spins)
      ensures forall starved :: !rc.Ok? ==> RegisterCode(rc, usb.log, usb.Past(1), starved)
      ensures old(StandsBy(usb)) ==> rc.Ok? && usb.next == old(usb.next) + 3 && |usb.log| == |old(usb.log)| + 3
      ensures OnlyRoles(usb.log, |old(usb.log)|)
    {
      rc := AskStandbyAs(role);
      if !rc.Ok? {
        return;
      }
      var released, _ := AwaitBit(REG_ADMR, ADSR_NATN, true, 500);
      if !released {
        BeNeutral(spins);
        return Rc.Aborted;
      }
    }

    /** Nothing since event `from` but writes and reads of the address status. */
    static predicate OnlyRoles(log: seq<Event>, from: nat) {
      forall k :: from <= k < |log| ==> log[k].ControlOut? || IsRead(log[k], REG_ADMR)
    }

    static lemma OnlyRolesRead(log: seq<Event>, from: nat)
      requires OnlyRoles(log, from)
      ensures Unread(log, from, |log|, REG_ISR1) && NoDataReads(log, from)
    {
    }

    /** The next three replies let the core go to standby at once. */
    static predicate StandsBy(d: Device)
      reads d`next
    {
      Accepts(d.Upcoming(0), 1) && Accepts(d.Upcoming(1), 1) && Shows(d.Upcoming(2), ADSR_NATN, true)
    }

    /** The stream of the firmware path, except that an EOI latched before the write goes out
        with its first byte. EOI is latched afterwards exactly if it was and no byte went out,
        or if this write armed EOI and its byte was then refused. */
    method WriteDataViaRegisters(buf: seq<byte>, sendEoi: bool, timeoutUs: u32)
      returns (rc: Rc, written: nat, ghost placed: nat)
      requires Valid()
      modifies usb`next, usb`log
      ensures Valid() && rfdHoldoffPending == old(rfdHoldoffPending) && old(usb.log) <= usb.log
      ensures placed <= |buf| && written <= placed && (rc.Ok? ==> written == placed == |buf|)
      ensures C().sent == old(C()).sent + Marked(buf, sendEoi, old(C()).eoiLatched)[..placed]
      ensures C().SameHoldoff(old(C()))
      ensures C().eoiLatched == ((placed == 0 && old(C()).eoiLatched) || LostEoi(usb.log, |old(usb.log)|))
      ensures LostEoi(usb.log, |old(usb.log)|) ==> !rc.Ok? && sendEoi && placed == |buf| - 1
      ensures if buf == [] then rc.Ok? else rc.Ok? <==> !RegisterFailed(usb.log, PollIterationsFor(timeoutUs))
      ensures !rc.Ok? ==> RegisterCode(rc, usb.log, usb.Past(1), NoListener)
      ensures buf != [] && !(sendEoi && |buf| == 1) && old(StandsBy(usb)) && Accepts(old(usb.Upcoming(3)), 1) ==>
                placed > 0
      ensures |buf| == 1 && sendEoi && old(StandsBy(usb) && RefusesByte(usb, 3)) ==>
                placed == 0 && C().eoiLatched && usb.next == old(usb.next) + 5
    {
      if |buf| == 0 {
        return Ok, 0, 0;
      }
      rc := EnterStandby(ADMR_TON, PollIterationsFor(timeoutUs));
      if !rc.Ok? {
        return rc, 0, 0;
      }
      rc, written, placed := SendBytes(|old(usb.log)|, buf, sendEoi, timeoutUs);
    }

    /** The loop over the bytes, in standby as talker. */
    method SendBytes(ghost from: nat, buf: seq<byte>, sendEoi: bool, timeoutUs: u32)
      returns (rc: Rc, written: nat, ghost placed: nat)
      requires !C().command && C().role == ADMR_TON && from < |usb.log| && usb.log[|usb.log| - 1].ControlIn?
      modifies usb`next, usb`log
      ensures placed <= |buf| && written <= placed && (rc.Ok? ==> written == placed == |buf|)
      ensures C().SameButRole(Streamed(old(C()), buf, sendEoi, placed, LostEoi(usb.log, from)))
      ensures old(usb.log) <= usb.log
      ensures LostEoi(usb.log, from) ==> !rc.Ok? && sendEoi && placed == |buf| - 1
      ensures if rc.Ok? then usb.log != [] && usb.log[|usb.log| - 1].ControlIn?
              else
                && RegisterFailed(usb.log, PollIterationsFor(timeoutUs))
                && RegisterCode(rc, usb.log, usb.Past(1), NoListener)
      ensures buf != [] && !(sendEoi && |buf| == 1) && Accepts(old(usb.Upcoming(0)), 1) ==> placed > 0
      ensures |buf| == 1 && sendEoi && old(RefusesByte(usb, 0)) ==>
                placed == 0 && C().eoiLatched && usb.next == old(usb.next) + 2
    {
      ghost var c0 := C();
      StreamedNone(c0, buf, sendEoi);
      written, placed := 0, 0;
      for i := 0 to |buf|
        invariant written == placed == i && C() == Streamed(c0, buf, sendEoi, i, false)
        invariant old(usb.log) <= usb.log && usb.log[|usb.log| - 1].ControlIn?
        invariant if i == 0 then usb.next == old(usb.next) else !(|buf| == 1 && sendEoi && old(RefusesByte(usb, 0)))
      {
        rc, placed := SendNth(from, c0, buf, i, sendEoi, timeoutUs);
        if !rc.Ok? {
          return;
        }
        written := i + 1;
      }
      rc := Ok;
    }

    /** Byte `i` of the message, armed with EOI if it is the last one and EOI is asked for. */
    method SendNth(ghost from: nat, ghost c0: Chip, buf: seq<byte>, i: nat, sendEoi: bool, timeoutUs: u32)
      returns (rc: Rc, ghost placed: nat)
      requires i < |buf| && !c0.command && c0.role == ADMR_TON && C() == Streamed(c0, buf, sendEoi, i, false)
      requires from < |usb.log| && usb.log[|usb.log| - 1].ControlIn?
      modifies usb`next, usb`log
      ensures i <= placed <= i + 1 && C().SameButRole(Streamed(c0, buf, sendEoi, placed, LostEoi(usb.log, from)))
      ensures rc.Ok? ==> C().role == ADMR_TON
      ensures old(usb.log) <= usb.log
      ensures rc.Ok? ==> placed == i + 1 && usb.log[|usb.log| - 1].ControlIn?
      ensures LostEoi(usb.log, from) ==> !rc.Ok? && sendEoi && placed == i == |buf| - 1
      ensures !rc.Ok? ==>
        RegisterFailed(usb.log, PollIterationsFor(timeoutUs)) && RegisterCode(rc, usb.log, usb.Past(1), NoListener)
      ensures !(sendEoi && i == |buf| - 1) && Accepts(old(usb.Upcoming(0)), 1) ==> placed == i + 1
      ensures sendEoi && i == |buf| - 1 && old(RefusesByte(usb, 0)) ==>
                !rc.Ok? && placed == i && C().eoiLatched && usb.next == old(usb.next) + 2
    {
      ghost var wrote;
      rc, wrote := SendDataByte(buf[i], sendEoi && i == |buf| - 1, timeoutUs);
      LostInStep(old(usb.log), usb.log, from);
      StreamedNext(c0, buf, sendEoi, i, wrote, LostEoi(usb.log, from));
      placed := if wrote then i + 1 else i;
    }

    /** Reply `k` accepts the arming of EOI, and the one after it refuses the byte. */
    static predicate RefusesByte(d: Device, k: nat)
      reads d`next
    {
      Accepts(d.Upcoming(k), 1) && !Accepts(d.Upcoming(k + 1), 1)
    }

    method SendDataByte(b: byte, eoi: bool, timeoutUs: u32) returns (rc: Rc, ghost wrote: bool)
      requires !C().command && C().role == ADMR_TON
      modifies usb`next, usb`log
      ensures C().SameButRole(Attempted(old(C()), b, eoi, wrote, LostEoi(usb.log, |old(usb.log)|)))
      ensures rc.Ok? ==> C().role == ADMR_TON
      ensures old(usb.log) <= usb.log && |usb.log| > |old(usb.log)|
      ensures rc.Ok? ==> wrote && usb.log[|usb.log| - 1].ControlIn?
      ensures LostEoi(usb.log, |old(usb.log)|) ==> eoi && !wrote
      ensures !rc.Ok? ==>
        RegisterFailed(usb.log, PollIterationsFor(timeoutUs)) && RegisterCode(rc, usb.log, usb.Past(1), NoListener)
      ensures !eoi && Accepts(old(usb.Upcoming(0)), 1) ==> wrote
      ensures eoi && old(RefusesByte(usb, 0)) ==> !rc.Ok? && !wrote && C().eoiLatched && usb.next == old(usb.next) + 2
    {
      wrote := false;
      if eoi {
        rc := WriteRawRegister(REG_AUXMR, AUX_SEOI);
        if !rc.Ok? {
          return;
        }
      }
      rc, wrote := PutByte(b, timeoutUs);
    }

    /** Write the byte and wait for it to be taken; on a timeout stop being a talker. */
    method PutByte(b: byte, timeoutUs: u32) returns (rc: Rc, ghost wrote: bool)
      requires !C().command && C().role == ADMR_TON
      modifies usb`next, usb`log
      ensures wrote == Accepts(old(usb.Upcoming(0)), 1)
      ensures if wrote then
                && C().SameButRole(
                     old(C()).(sent := old(C()).sent + [BusByte(b, old(C()).eoiLatched)], eoiLatched := false))
                && (rc.Ok? ==> C().role == ADMR_TON)
                && old(usb.log) <= usb.log && |usb.log| > |old(usb.log)| && !RefusedData(usb.log[|usb.log| - 1])
              else
                && !rc.Ok? && C() == old(C())
                && usb.log == old(usb.log) + [Event.ControlOut(REQ_REG, REG_DATA, 0, [b], false)]
      ensures rc.Ok? ==> usb.log[|usb.log| - 1].ControlIn?
      ensures !wrote ==> usb.next == old(usb.next) + 1
      ensures !rc.Ok? ==>
        RegisterFailed(usb.log, PollIterationsFor(timeoutUs)) && RegisterCode(rc, usb.log, usb.Past(1), NoListener)
    {
      rc := WriteRawRegister(REG_DATA, b);
      wrote := rc.Ok?;
      if !rc.Ok? {
        return;
      }
      var sent, _ := AwaitBit(REG_ISR1, ISR1_DO, true, PollIterationsFor(timeoutUs));
      if !sent {
        BeNeutral(PollIterationsFor(timeoutUs));
        rc := NoListener;
      }
    }

    /** Bytes arrive in order; anything received leaves the holdoff recorded, while the chip holds
        off exactly if a byte read came with END or it did before and was not freed. END is
        reported exactly if the ISR1 read that announced the last byte showed it and it was not
        latched already at the first look at ISR1. `at` is the event that fetched that byte. */
    method ReadDataViaRegisters(buf: array<byte>, requestCount: nat, eosChar: byte, eosFlags: byte, timeoutUs: u32)
      returns (rc: Rc, got: nat, end: byte, ghost at: nat)
      requires Valid() && requestCount <= buf.Length
      modifies usb`next, usb`log, buf, this`rfdHoldoffPending
      ensures Valid() && old(usb.log) <= usb.log
      ensures got <= requestCount && C().received == old(C()).received + buf[..got]
      ensures requestCount > 0 ==> rfdHoldoffPending == (got > 0)
      ensures buf[got..] == old(buf[got..]) && end <= 1 && (!rc.Ok? || got == 0 ==> got == 0 && end == 0)
      ensures got > 0 ==> |old(usb.log)| < at
      ensures got > 0 ==> Reported(usb.log, at, buf[got - 1], end == 1, StartsLatched(usb.log, |old(usb.log)|))
      ensures C().held == (EndedSince(usb.log, usb.ended, |old(usb.log)|) ||
                (old(C()).held && !(requestCount > 0 && old(rfdHoldoffPending) && Accepts(old(usb.Upcoming(0)), 1))))
      ensures C().honest == (old(C()).honest &&
                !(requestCount > 0 && old(rfdHoldoffPending) && Accepts(old(usb.Upcoming(0)), 1) && !old(C()).held))
      ensures C().SameData(old(C())) && C().cmds == old(C()).cmds && C().clean == old(C()).clean
      ensures if requestCount == 0 then rc.Ok?
              else rc.Ok? <==> got > 0 || !RegisterFailed(usb.log, PollIterationsFor(timeoutUs))
      ensures !rc.Ok? ==> RegisterCode(rc, usb.log, usb.Past(1), Rc.TimedOut)
      ensures 0 < got < requestCount && end == 0 ==> RanDry(usb.log)
      ensures requestCount == 1 && old(!rfdHoldoffPending && StandsBy(usb) && Shows(usb.Upcoming(4), ISR1_DI, true)) ==>
        && usb.next == old(usb.next) + 6 && got == (if old(Yields(usb.Upcoming(5))) then 1 else 0)
        && (EndedSince(usb.log, usb.ended, |old(usb.log)|) <==> usb.ended(|old(usb.log)| + 5))
    {
      got, end, at := 0, 0, 0;
      if requestCount == 0 {
        NotEnded(usb.log, usb.ended, |usb.log|);
        return Ok, 0, 0, 0;
      }
      rc := BecomeListener(PollIterationsFor(timeoutUs));
      if !rc.Ok? {
        return;
      }
      rc, got, end, at := ReceiveMessage(|old(usb.log)|, buf, requestCount, eosChar, eosFlags, timeoutUs);
    }

    /** The bytes of a message, received as a listener with nothing on the record, and the record
        of the holdoff that they leave. */
    method ReceiveMessage(ghost from: nat, buf: array<byte>, requestCount: nat,
                          eosChar: byte, eosFlags: byte, timeoutUs: u32)
      returns (rc: Rc, got: nat, end: byte, ghost at: nat)
      requires Valid() && !rfdHoldoffPending && C().role == ADMR_LON && 0 < requestCount <= buf.Length
      requires from <= |usb.log| && Unread(usb.log, from, |usb.log|, REG_ISR1) && !EndedSince(usb.log, usb.ended, from)
      modifies usb`next, usb`log, buf, this`rfdHoldoffPending
      ensures Valid() && old(usb.log) <= usb.log && got <= requestCount && rfdHoldoffPending == (got > 0)
      ensures C().SameButRole(old(C()).Receive(buf[..got], EndedSince(usb.log, usb.ended, from)))
      ensures buf[got..] == old(buf[got..]) && end <= 1 && (!rc.Ok? || got == 0 ==> got == 0 && end == 0)
      ensures got > 0 ==> from < at && Reported(usb.log, at, buf[got - 1], end == 1, StartsLatched(usb.log, from))
      ensures rc.Ok? <==> got > 0 || !RegisterFailed(usb.log, PollIterationsFor(timeoutUs))
      ensures !rc.Ok? ==> RegisterCode(rc, usb.log, usb.Past(1), Rc.TimedOut)
      ensures 0 < got < requestCount && end == 0 ==> RanDry(usb.log)
      ensures requestCount == 1 && old(Shows(usb.Upcoming(1), ISR1_DI, true)) ==>
        && usb.next == old(usb.next) + 3 && got == (if old(Yields(usb.Upcoming(2))) then 1 else 0)
        && (EndedSince(usb.log, usb.ended, from) <==> usb.ended(|old(usb.log)| + 2))
    {
      ghost var mid := usb.log;
      var ended, timedOut, sawEnd;
      got, ended, timedOut, sawEnd, at := LookAndReceive(from, buf, requestCount, eosChar, eosFlags, timeoutUs);
      end := if ended then 1 else 0;
      EndedNext(mid, usb.log, usb.ended, from);
      if sawEnd || got > 0 {
        rfdHoldoffPending := true;
      }
      rc := if timedOut && got == 0 then Rc.TimedOut else Ok;
    }

    method BecomeListener(ghost spins: nat) returns (rc: Rc)
      requires Valid()
      modifies usb`next, usb`log, this`rfdHoldoffPending
      ensures Valid() && !rfdHoldoffPending && old(usb.log) <= usb.log
      ensures Unread(usb.log, |old(usb.log)|, |usb.log|, REG_ISR1)
      ensures C().received == old(C()).received && C().cmds == old(C()).cmds
      ensures C().SameData(old(C())) && C().clean == old(C()).clean
      ensures C().held == (old(C()).held && !(old(rfdHoldoffPending) && Accepts(old(usb.Upcoming(0)), 1)))
      ensures C().honest == (old(C()).honest &&
                !(old(rfdHoldoffPending) && Accepts(old(usb.Upcoming(0)), 1) && !old(C()).held))
      ensures !rc.Ok? ==> RegisterFailed(usb.log, spins) && RegisterCode(rc, usb.log, usb.Past(1), Rc.TimedOut)
      ensures !old(rfdHoldoffPending) && old(StandsBy(usb)) ==>
                rc.Ok? && usb.next == old(usb.next) + 3 && |usb.log| == |old(usb.log)| + 3
      ensures !EndedSince(usb.log, usb.ended, |old(usb.log)|) && (rc.Ok? ==> C().role == ADMR_LON)
    {
      ReleaseRfdHoldoffIfPending();
      rc := EnterStandby(ADMR_LON, spins);
      OnlyRolesRead(usb.log, |old(usb.log)|);
      NotEnded(usb.log, usb.ended, |old(usb.log)|);
    }

    /** The first look at ISR1, and the receive loop with what it says about END. */
    method LookAndReceive(ghost from: nat, buf: array<byte>, requestCount: nat,
                          eosChar: byte, eosFlags: byte, timeoutUs: u32)
      returns (got: nat, ended: bool, timedOut: bool, sawEnd: bool, ghost at: nat)
      requires 0 < requestCount <= buf.Length && from <= |usb.log| && Unread(usb.log, from, |usb.log|, REG_ISR1)
      requires C().role == ADMR_LON
      modifies usb`next, usb`log, buf
      ensures got <= requestCount && (sawEnd || ended ==> got > 0) && (timedOut ==> got == 0)
      ensures old(usb.log) <= usb.log && |old(usb.log)| < |usb.log|
      ensures got > 0 ==> from < at && Reported(usb.log, at, buf[got - 1], ended, StartsLatched(usb.log, from))
      ensures C().SameButRole(old(C()).Receive(buf[..got], EndedSince(usb.log, usb.ended, |old(usb.log)|)))
      ensures buf[got..] == old(buf[got..])
      ensures if timedOut then GaveUp(usb.log, PollIterationsFor(timeoutUs)) && StarvedOf(usb.log, REG_ISR1)
              else got == 0 ==> usb.log[|usb.log| - 1].ControlIn?
      ensures 0 < got < requestCount && !ended ==> RanDry(usb.log)
      ensures requestCount == 1 && old(Shows(usb.Upcoming(1), ISR1_DI, true)) ==>
        && usb.next == old(usb.next) + 3 && got == (if old(Yields(usb.Upcoming(2))) then 1 else 0)
        && (EndedSince(usb.log, usb.ended, |old(usb.log)|) <==> usb.ended(|old(usb.log)| + 2))
    {
      ghost var look := |usb.log|;
      var endUnusable := LookForEnd();
      ghost var first := usb.log;
      assert usb.Upcoming(0) == old(usb.Upcoming(1)) && usb.Upcoming(1) == old(usb.Upcoming(2));
      got, ended, timedOut, sawEnd, at := ReceiveBytes(buf, requestCount, eosChar, eosFlags, timeoutUs, endUnusable);
      LookedFirst(C(), first, usb.log, usb.ended, from, look, old(C()), buf[..got], at, ended, endUnusable);
    }

    /** What was received after the first look at ISR1, seen from before it. */
    static lemma LookedFirst(c: Chip, first: seq<Event>, log: seq<Event>, ends: nat -> bool, from: nat, look: nat,
                             c0: Chip, got: seq<byte>, at: nat, ended: bool, unusable: bool)
      requires from <= look && |first| == look + 1 && first <= log && Unread(first, from, look, REG_ISR1)
      requires IsRead(first[look], REG_ISR1) && (unusable <==> ReadsBit(first[look], REG_ISR1, ISR1_END))
      requires !EndedSince(first, ends, look) && ArrivedIn(c, log, ends, look + 1, c0, got, at, ended, unusable)
      ensures EndedSince(log, ends, look) <==> EndedSince(log, ends, look + 1)
      ensures c.SameButRole(c0.Receive(got, EndedSince(log, ends, look)))
      ensures got != [] ==> from < at && Reported(log, at, got[|got| - 1], ended, StartsLatched(log, from))
    {
      assert log[look] == first[look];
      assert Unread(log, from, look, REG_ISR1) by {
        assert forall k :: from <= k < look ==> log[k] == first[k];
      }
      FirstLook(log, from, look);
      EndedNext(first, log, ends, look);
    }

    /** END that is latched already cannot be told from that of a byte to come. */
    method LookForEnd() returns (latched: bool)
      modifies usb`next, usb`log
      ensures old(usb.log) <= usb.log && |usb.log| == |old(usb.log)| + 1 && usb.next == old(usb.next) + 1
      ensures IsRead(usb.log[|old(usb.log)|], REG_ISR1)
      ensures latched <==> ReadsBit(usb.log[|old(usb.log)|], REG_ISR1, ISR1_END)
      ensures C() == old(C()) && !EndedSince(usb.log, usb.ended, |old(usb.log)|)
    {
      var _, isr1 := ReadRawRegister(REG_ISR1);
      latched := HasBit(isr1, ISR1_END);
      NotEnded(usb.log, usb.ended, |old(usb.log)|);
    }

    /** What has been received since event `from`, when the chip was `c0`: these bytes in order,
        the last of them by event `at`, with what is reported of its END. */
    ghost predicate Arrived(from: nat, c0: Chip, got: seq<byte>, at: nat, ended: bool, unusable: bool)
      reads usb
    {
      ArrivedIn(C(), usb.log, usb.ended, from, c0, got, at, ended, unusable)
    }

    static ghost predicate ArrivedIn(c: Chip, log: seq<Event>, ends: nat -> bool, from: nat, c0: Chip,
                                     got: seq<byte>, at: nat, ended: bool, unusable: bool)
    {
      && c.SameButRole(c0.Receive(got, EndedSince(log, ends, from)))
      && (if got == [] then !ended else from < at && Reported(log, at, got[|got| - 1], ended, unusable))
    }

    static lemma NoneArrived(c: Chip, d: Chip, before: seq<Event>, log: seq<Event>, ends: nat -> bool, from: nat,
                             c0: Chip, got: seq<byte>, at: nat, unusable: bool)
      requires from <= |before| && before <= log && NoReceipts(log, |before|)
      requires ArrivedIn(c, before, ends, from, c0, got, at, false, unusable)
      requires d.SameButRole(c.Receive([], EndedSince(log, ends, |before|))) && c.role == c0.role
      ensures ArrivedIn(d, log, ends, from, c0, got, at, false, unusable)
    {
      EndedNext(before, log, ends, from);
      ReceivedNext(c0, got, [], EndedSince(before, ends, from), EndedSince(log, ends, |before|));
      assert got + [] == got;
      if got != [] {
        StillReported(before, log, at);
      }
    }

    static lemma OneArrived(c: Chip, d: Chip, before: seq<Event>, log: seq<Event>, ends: nat -> bool, from: nat,
                            c0: Chip, got: seq<byte>, at: nat, unusable: bool, isr1: byte, b: byte)
      requires from <= |before| && before <= log && Announced(log, |before|, isr1, b)
      requires ArrivedIn(c, before, ends, from, c0, got, at, false, unusable)
      requires d.SameButRole(c.Receive([b], EndedSince(log, ends, |before|))) && c.role == c0.role
      ensures ArrivedIn(d, log, ends, from, c0, got + [b], |log| - 1, !unusable && HasBit(isr1, ISR1_END), unusable)
    {
      EndedNext(before, log, ends, from);
      ReceivedNext(c0, got, [b], EndedSince(before, ends, from), EndedSince(log, ends, |before|));
    }

    static lemma NextArrived(c: Chip, d: Chip, before: seq<Event>, log: seq<Event>, ends: nat -> bool, from: nat,
                             c0: Chip, got: seq<byte>, at: nat, unusable: bool, isr1: byte, data: Option<byte>)
      requires from <= |before| && before <= log && ArrivedIn(c, before, ends, from, c0, got, at, false, unusable)
      requires if data.Some? then Announced(log, |before|, isr1, data.value) else NoReceipts(log, |before|)
      requires d.SameButRole(c.Receive(AsBytes(data), EndedSince(log, ends, |before|))) && c.role == c0.role
      ensures ArrivedIn(d, log, ends, from, c0, got + AsBytes(data), if data.Some? then |log| - 1 else at,
                        data.Some? && !unusable && HasBit(isr1, ISR1_END), unusable)
    {
      if data.Some? {
        OneArrived(c, d, before, log, ends, from, c0, got, at, unusable, isr1, data.value);
      } else {
        NoneArrived(c, d, before, log, ends, from, c0, got, at, unusable);
        assert got + [] == got;
      }
    }

    /** The next reply shows that a byte has arrived, and the one after hands it over or not. */
    ghost predicate OneFetched(from: nat, first: nat, shows: bool, handed: bool, got: nat)
      reads usb
    {
      shows ==>
        && usb.next == first + 2 && got == (if handed then 1 else 0)
        && (EndedSince(usb.log, usb.ended, from) <==> usb.ended(from + 1))
    }

    /** Why a message may stop short without END: no byte for 250 polls, a failed poll, or a byte
        that could not be had. */
    static predicate RanDry(log: seq<Event>) {
      GaveUp(log, 250) || RefusedRead(log, REG_DATA)
    }

    /** The receive loop: bytes are taken until END, a gap, or the count. */
    method ReceiveBytes(buf: array<byte>, requestCount: nat, eosChar: byte, eosFlags: byte,
                        timeoutUs: u32, endUnusable: bool)
      returns (got: nat, ended: bool, timedOut: bool, sawEnd: bool, ghost at: nat)
      requires 0 < requestCount <= buf.Length && C().role == ADMR_LON
      modifies usb`next, usb`log, buf
      ensures got <= requestCount && (sawEnd ==> got > 0) && (timedOut ==> got == 0)
      ensures old(usb.log) <= usb.log && |old(usb.log)| < |usb.log|
      ensures Arrived(|old(usb.log)|, old(C()), buf[..got], at, ended, endUnusable)
      ensures buf[got..] == old(buf[got..])
      ensures if timedOut then GaveUp(usb.log, PollIterationsFor(timeoutUs)) && StarvedOf(usb.log, REG_ISR1)
              else got == 0 ==> usb.log[|usb.log| - 1].ControlIn?
      ensures 0 < got < requestCount && !ended ==> RanDry(usb.log)
      ensures requestCount == 1 ==>
        OneFetched(|old(usb.log)|, old(usb.next), old(Shows(usb.Upcoming(0), ISR1_DI, true)),
                   old(Yields(usb.Upcoming(1))), got)
    {
      ghost var c0, from, was := C(), |usb.log|, buf[..];
      NothingReceived(c0);
      NotEnded(usb.log, usb.ended, from);
      got, ended, timedOut, sawEnd, at := 0, false, false, false, 0;
      ghost var received: seq<byte> := [];
      var more := true;
      while more && got < requestCount
        invariant got <= requestCount && (sawEnd ==> got > 0) && (timedOut ==> got == 0 && !more) && (more ==> !ended)
        invariant old(usb.log) <= usb.log
        invariant Arrived(from, c0, received, at, ended, endUnusable)
        invariant |received| == got && buf[..] == received + was[got..]
        invariant timedOut ==> GaveUp(usb.log, PollIterationsFor(timeoutUs)) && StarvedOf(usb.log, REG_ISR1)
        invariant more ==> C().role == ADMR_LON
        invariant !more && !ended && got > 0 ==> RanDry(usb.log)
        invariant if more && got == 0 then usb.log == old(usb.log) && usb.next == old(usb.next)
                  else from < |usb.log| && (got == 0 && !timedOut ==> usb.log[|usb.log| - 1].ControlIn?)
        invariant requestCount == 1 && (got > 0 || !more) ==>
          OneFetched(from, old(usb.next), old(Shows(usb.Upcoming(0), ISR1_DI, true)), old(Yields(usb.Upcoming(1))), got)
        decreases requestCount - got, more
      {
        got, more, ended, timedOut, sawEnd, at, received :=
          ReceiveInto(buf, got, eosChar, eosFlags, timeoutUs, endUnusable, from, c0, at, received, was);
      }
      assert buf[..got] == received && buf[got..] == was[got..];
    }

    /** One turn of the loop, with its byte stored behind the ones already there. */
    method ReceiveInto(buf: array<byte>, sofar: nat, eosChar: byte, eosFlags: byte, timeoutUs: u32, endUnusable: bool,
                       ghost from: nat, ghost c0: Chip, ghost last: nat,
                       ghost before: seq<byte>, ghost was: seq<byte>)
      returns (got: nat, more: bool, ended: bool, timedOut: bool, sawEnd: bool, ghost at: nat,
               ghost received: seq<byte>)
      requires sofar < buf.Length && from <= |usb.log| && Arrived(from, c0, before, last, false, endUnusable)
      requires C().role == c0.role == ADMR_LON && |was| == buf.Length
      requires |before| == sofar && buf[..] == before + was[sofar..]
      modifies usb`next, usb`log, buf
      ensures old(usb.log) <= usb.log && |old(usb.log)| < |usb.log| && sofar <= got <= sofar + 1
      ensures Arrived(from, c0, received, at, ended, endUnusable)
      ensures |received| == got && buf[..] == received + was[got..]
      ensures (more <==> got > sofar && !ended) && (more ==> C().role == ADMR_LON)
      ensures (sawEnd ==> got > sofar) && (timedOut ==> got == 0)
      ensures if timedOut then GaveUp(usb.log, PollIterationsFor(timeoutUs)) && StarvedOf(usb.log, REG_ISR1)
              else got == 0 ==> usb.log[|usb.log| - 1].ControlIn?
      ensures 0 < got == sofar ==> RanDry(usb.log)
      ensures OneFetched(|old(usb.log)|, old(usb.next), old(Shows(usb.Upcoming(0), ISR1_DI, true)),
                         old(Yields(usb.Upcoming(1))), got - sofar)
    {
      var data;
      data, more, ended, timedOut, sawEnd, at :=
        ReceiveNext(sofar == 0, eosChar, eosFlags, timeoutUs, endUnusable, from, c0, before, last);
      received, got := before + AsBytes(data), sofar;
      ghost var chip, log := C(), usb.log;
      if data.None? {
        assert received == before;
      } else {
        Store(buf, got, data.value, before, was);
        got := got + 1;
        assert C() == chip && usb.log == log;
      }
    }

    /** The byte goes behind those already there, and the rest of the buffer is kept. */
    static method Store(buf: array<byte>, at: nat, b: byte, ghost before: seq<byte>, ghost was: seq<byte>)
      requires at < buf.Length == |was| && |before| == at && buf[..] == before + was[at..]
      modifies buf
      ensures buf[..] == before + [b] + was[at + 1..]
    {
      ghost var old0 := buf[..];
      buf[at] := b;
      assert buf[..] == old0[..at] + [b] + old0[at + 1..];
      assert old0[..at] == before && old0[at + 1..] == was[at + 1..];
    }

    static function AsBytes(data: Option<byte>): seq<byte> {
      if data.Some? then [data.value] else []
    }

    /** The byte of one turn or none, and `more` unless the read ends with it. */
    method ReceiveNext(first: bool, eosChar: byte, eosFlags: byte, timeoutUs: u32, endUnusable: bool,
                       ghost from: nat, ghost c0: Chip, ghost was: seq<byte>, ghost last: nat)
      returns (data: Option<byte>, more: bool, ended: bool, timedOut: bool, sawEnd: bool, ghost at: nat)
      requires from <= |usb.log| && first == (was == []) && Arrived(from, c0, was, last, false, endUnusable)
      requires C().role == c0.role == ADMR_LON
      modifies usb`next, usb`log
      ensures old(usb.log) <= usb.log && |old(usb.log)| < |usb.log|
      ensures Arrived(from, c0, was + AsBytes(data), at, ended, endUnusable)
      ensures (more <==> data.Some? && !ended) && (more ==> C().role == ADMR_LON)
      ensures (sawEnd ==> data.Some?) && (timedOut ==> data.None? && first)
      ensures if timedOut then GaveUp(usb.log, PollIterationsFor(timeoutUs)) && StarvedOf(usb.log, REG_ISR1)
              else first && data.None? ==> usb.log[|usb.log| - 1].ControlIn?
      ensures !first && data.None? ==> RanDry(usb.log)
      ensures OneFetched(|old(usb.log)|, old(usb.next), old(Shows(usb.Upcoming(0), ISR1_DI, true)),
                         old(Yields(usb.Upcoming(1))), |AsBytes(data)|)
    {
      more, ended, timedOut, sawEnd, at := false, false, false, false, last;
      var ready, isr1;
      ready, isr1, data :=
        TakeNext(if first then PollIterationsFor(timeoutUs) else 250, endUnusable, from, c0, was, last);
      if data.None? {
        timedOut := !ready && first;
      } else {
        at := |usb.log| - 1;
        if !endUnusable && HasBit(isr1, ISR1_END) {
          ended, sawEnd := true, true;
        } else if HasBit(eosFlags, REOS) && data.value == eosChar {
          ended := true;
        }
        more := !ended;
      }
    }

    /** The same without what the read makes of END. */
    method TakeNext(spins: nat, ghost endUnusable: bool, ghost from: nat, ghost c0: Chip, ghost was: seq<byte>,
                    ghost last: nat)
      returns (ready: bool, isr1: byte, data: Option<byte>)
      requires C().role == c0.role == ADMR_LON && spins > 0
      requires from <= |usb.log| && Arrived(from, c0, was, last, false, endUnusable)
      modifies usb`next, usb`log
      ensures old(usb.log) <= usb.log && |old(usb.log)| < |usb.log| && (data.Some? ==> ready)
      ensures Arrived(from, c0, was + AsBytes(data), if data.Some? then |usb.log| - 1 else last,
                      data.Some? && !endUnusable && HasBit(isr1, ISR1_END), endUnusable)
      ensures if ready then
                && usb.log[|usb.log| - 1].ControlIn? && C().role == ADMR_LON
                && (data.None? ==> RefusedRead(usb.log, REG_DATA))
              else GaveUp(usb.log, spins) && StarvedOf(usb.log, REG_ISR1)
      ensures OneFetched(|old(usb.log)|, old(usb.next), old(Shows(usb.Upcoming(0), ISR1_DI, true)),
                         old(Yields(usb.Upcoming(1))), |AsBytes(data)|)
    {
      ghost var before, c := usb.log, C();
      ready, isr1, data := TakeByte(spins);
      NextArrived(c, C(), before, usb.log, usb.ended, from, c0, was, last, endUnusable, isr1, data);
    }

    /** Wait for a byte and fetch it; on a timeout stop being a listener. The byte may be lost on
        the way, but if it came with END the chip holds off all the same. */
    method TakeByte(spins: nat) returns (ready: bool, isr1: byte, data: Option<byte>)
      requires C().role == ADMR_LON
      modifies usb`next, usb`log
      ensures old(usb.log) <= usb.log && |old(usb.log)| < |usb.log| && (data.Some? ==> ready)
      ensures C().SameButRole(old(C()).Receive(AsBytes(data), EndedSince(usb.log, usb.ended, |old(usb.log)|)))
      ensures ready ==> C().role == ADMR_LON
      ensures if data.Some? then Announced(usb.log, |old(usb.log)|, isr1, data.value)
              else NoReceipts(usb.log, |old(usb.log)|) && (ready ==> RefusedRead(usb.log, REG_DATA))
      ensures if ready then usb.log[|usb.log| - 1].ControlIn?
              else GaveUp(usb.log, spins) && (spins > 0 ==> StarvedOf(usb.log, REG_ISR1))
      ensures spins > 0 ==>
        OneFetched(|old(usb.log)|, old(usb.next), old(Shows(usb.Upcoming(0), ISR1_DI, true)),
                   old(Yields(usb.Upcoming(1))), |AsBytes(data)|)
    {
      data := None;
      ready, isr1 := AwaitByte(spins);
      if ready {
        data := FetchByte(|old(usb.log)|, isr1);
      } else {
        NotEnded(usb.log, usb.ended, |old(usb.log)|);
        NothingReceived(old(C()));
      }
    }

    method AwaitByte(spins: nat) returns (ready: bool, isr1: byte)
      modifies usb`next, usb`log
      ensures old(usb.log) <= usb.log && NoDataReads(usb.log, |old(usb.log)|)
      ensures if ready then C() == old(C()) else C().SameButRole(old(C()))
      ensures if ready then
                && |old(usb.log)| < |usb.log|
                && usb.log[|usb.log| - 1] == Event.ControlIn(REQ_REG, REG_ISR1, 1, [isr1], true)
              else
                && |old(usb.log)| < |usb.log| && GaveUp(usb.log, spins)
                && (spins > 0 ==> StarvedOf(usb.log, REG_ISR1))
      ensures spins > 0 && Shows(old(usb.Upcoming(0)), ISR1_DI, true) ==>
        ready && usb.next == old(usb.next) + 1 && |usb.log| == |old(usb.log)| + 1
    {
      ready, isr1 := AwaitBit(REG_ISR1, ISR1_DI, true, spins);
      if !ready {
        BeNeutral(spins);
      }
    }

    /** The byte announced by an ISR1 read, the last event since `from` and no byte read before. */
    method FetchByte(ghost from: nat, ghost isr1: byte) returns (data: Option<byte>)
      requires from < |usb.log| && NoDataReads(usb.log, from)
      requires usb.log[|usb.log| - 1] == Event.ControlIn(REQ_REG, REG_ISR1, 1, [isr1], true)
      modifies usb`next, usb`log
      ensures |usb.log| == |old(usb.log)| + 1 && old(usb.log) <= usb.log && usb.next == old(usb.next) + 1
      ensures C() == old(C()).Receive(AsBytes(data), EndedSince(usb.log, usb.ended, from))
      ensures data.Some? <==> old(Yields(usb.Upcoming(0)))
      ensures EndedSince(usb.log, usb.ended, from) <==> usb.ended(|old(usb.log)|)
      ensures if data.Some? then Announced(usb.log, from, isr1, data.value)
              else NoReceipts(usb.log, from) && RefusedRead(usb.log, REG_DATA)
      ensures usb.log[|usb.log| - 1].ControlIn?
    {
      ghost var before := usb.log;
      var rc, b := ReadRawRegister(REG_DATA);
      assert IsRead(usb.log[|before|], REG_DATA);
      data := if rc.Ok? then Some(b) else None;
      NotEnded(before, usb.ended, from);
      EndedNext(before, usb.log, usb.ended, from);
    }

    // ----- Bring-up and whole runs -----

    /** The engine recovered and the bring-up sent in order up to the first request that is
        refused, ending in the chip's power-on release; the record of a holdoff goes with the
        last of them, the chip's holdoff already with the reset in the first. */
    method RunBringUpSequence() returns (rc: Rc, ghost done: nat)
      requires Valid()
      modifies usb`next, usb`log, this`rfdHoldoffPending
      ensures Valid() && (rc.Ok? <==> done == 8) && C() == BroughtUp(old(C()), done)
      ensures !rc.Ok? ==> Codes(rc, usb.Past(1))
      ensures exists ok :: usb.log == old(usb.log) + Recovery(ok) + Settled(done)
      ensures rfdHoldoffPending == (old(rfdHoldoffPending) && !rc.Ok?)
      ensures old(BreaksOff(usb, 1)) ==> done == 1 && usb.next == old(usb.next) + 3
    {
      RecoverFirmwareEngine();
      rc, done := SendSettings();
      if rc.Ok? {
        rfdHoldoffPending := false;
      }
    }

    /** Reply `k` accepts the settings with the chip reset, and the one after it refuses the next. */
    static predicate BreaksOff(d: Device, k: nat)
      reads d`next
    {
      Accepts(d.Upcoming(k), 8) && !Accepts(d.Upcoming(k + 1), 3)
    }

    method SendSettings() returns (rc: Rc, ghost done: nat)
      modifies usb`next, usb`log
      ensures done <= 8 && (rc.Ok? <==> done == 8) && C() == BroughtUp(old(C()), done)
      ensures !rc.Ok? ==> Codes(rc, usb.Past(1))
      ensures usb.log == old(usb.log) + Settled(done)
      ensures old(BreaksOff(usb, 0)) ==> done == 1 && usb.next == old(usb.next) + 2
    {
      rc, done := Ok, 0;
      for i := 0 to 8
        invariant rc.Ok? && done == i && C() == BroughtUp(old(C()), i) && usb.log == old(usb.log) + BringUpEvents(i)
        invariant usb.next == old(usb.next) + i && (i >= 1 ==> Accepts(old(usb.Upcoming(0)), 8))
        invariant i >= 2 ==> Accepts(old(usb.Upcoming(1)), 3)
      {
        SettingSizes(i);
        SettingAccepted(old(C()), i);
        SettingRefused(BroughtUp(old(C()), i), i);
        BringUpNext(old(usb.log), i);
        rc := SendSetting(BRING_UP[i]);
        if !rc.Ok? {
          return;
        }
        done := i + 1;
      }
      assert BringUpEvents(8) == Settled(8);
    }

    method SendSetting(s: Setting) returns (rc: Rc)
      requires |s.data| <= CONTROL_BUFFER && (s.request == REQ_REG ==> s.wValue != REG_DATA)
      modifies usb`next, usb`log
      ensures usb.log == old(usb.log) + [Event.ControlOut(s.request, s.wValue, 0, s.data, rc.Ok?)]
      ensures usb.next == old(usb.next) + 1 && (rc.Ok? <==> Accepts(old(usb.Upcoming(0)), |s.data|))
      ensures !rc.Ok? ==> Codes(rc, usb.Past(1))
      ensures C() == old(C()).Step(Event.ControlOut(s.request, s.wValue, 0, s.data, rc.Ok?), false)
    {
      rc := ControlOut(s.request, s.wValue, 0, s.data);
    }

    method SetRemoteEnable(enable: bool) returns (rc: Rc)
      requires Valid()
      modifies usb`next, usb`log, this`renAsserted
      ensures Valid() && renAsserted == if rc.Ok? then enable else old(renAsserted)
      ensures !rc.Ok? ==> Codes(rc, usb.Past(1))
      ensures usb.log == old(usb.log) +
                [Event.ControlOut(REQ_REG, REG_AUXMR, 0, [if enable then AUX_SREN else AUX_CREN], rc.Ok?)]
    {
      rc := WriteRawRegister(REG_AUXMR, if enable then AUX_SREN else AUX_CREN);
      if rc.Ok? {
        renAsserted := enable;
      }
    }

    /** Success means that the chip took both halves of the pulse, or that the firmware
        reported its own pulse done; it is asked for that one exactly if the chip did not take
        both, and twice at most. */
    method PulseInterfaceClear() returns (rc: Rc, ghost aux: seq<Event>, ghost firmware: seq<Event>)
      requires Valid()
      modifies usb`next, usb`log
      ensures Valid() && usb.log == old(usb.log) + aux + firmware && C() == old(C()) && ViaAux(aux)
      ensures if ChipPulsed(aux) then firmware == [] else Asked(firmware, REQ_PULSE_IFC, 1, NotPulsed)
      ensures rc.Ok? <==> ChipPulsed(aux) || FirmwarePulsed(firmware)
      ensures !rc.Ok? ==> PulseCode(rc, usb.log, usb.Past(1))
    {
      firmware := [];
      rc, aux := PulseViaAux();
      if !rc.Ok? {
        rc, firmware := PulseViaFirmware();
      }
    }

    /** The firmware's pulse, asked for twice at most. */
    method PulseViaFirmware() returns (rc: Rc, ghost d: seq<Event>)
      modifies usb`next, usb`log
      ensures usb.log == old(usb.log) + d && C() == old(C()) && Asked(d, REQ_PULSE_IFC, 1, NotPulsed)
      ensures (rc.Ok? <==> FirmwarePulsed(d)) && (!rc.Ok? ==> PulseCode(rc, usb.log, usb.Past(1)))
    {
      var done;
      rc, done, d := FirmwarePulse();
      if !rc.Ok? || done {
        return;
      }
      ghost var first, second := d, d;
      rc, done, second := FirmwarePulse();
      d := first + second;
      AskedTwice(first, second, REQ_PULSE_IFC, 1, NotPulsed);
      if rc.Ok? && !done {
        rc := IoError;
      }
    }

    /** Assert and release through the chip. */
    method PulseViaAux() returns (rc: Rc, ghost d: seq<Event>)
      modifies usb`next, usb`log
      ensures usb.log == old(usb.log) + d && ViaAux(d) && (rc.Ok? <==> ChipPulsed(d))
      ensures C() == old(C())
    {
      rc := WriteRawRegister(REG_AUXMR, AUX_SIFC);
      d := [Event.ControlOut(REQ_REG, REG_AUXMR, 0, [AUX_SIFC], rc.Ok?)];
      if rc.Ok? {
        rc := WriteRawRegister(REG_AUXMR, AUX_CIFC);
        d := d + [Event.ControlOut(REQ_REG, REG_AUXMR, 0, [AUX_CIFC], rc.Ok?)];
      }
    }

    method FirmwarePulse() returns (rc: Rc, done: bool, ghost d: seq<Event>)
      modifies usb`next, usb`log
      ensures C() == old(C()) && usb.log == old(usb.log) + d && AskedOnce(d, REQ_PULSE_IFC, 1)
      ensures rc.Ok? && done <==> FirmwarePulsed(d)
      ensures if rc.Ok? then |d| == 2 && d[1].ok && (done || NotPulsed(d[1]))
              else PulseCode(rc, usb.log, usb.Past(1)) && (|d| == 2 ==> !d[1].ok)
    {
      done := false;
      rc := ControlOut(REQ_PULSE_IFC, 0, 0, []);
      d := [Event.ControlOut(REQ_PULSE_IFC, 0, 0, [], rc.Ok?)];
      if !rc.Ok? {
        return;
      }
      var got;
      rc, got := ControlIn(REQ_STATUS, 0, 1);
      d := d + [Event.ControlIn(REQ_STATUS, 0, 1, got, rc.Ok?)];
      done := |got| > 0 && got[0] == STATE_DONE;
      assert done ==> got == [STATE_DONE];
    }

    /** Take control through a command block; the record of a holdoff is not looked at. */
    method TakeControl(synchronous: bool) returns (rc: Rc)
      requires Valid()
      modifies usb`next, usb`log
      ensures Valid() && usb.log == old(usb.log) +
                [Event.ControlOut(REQ_CMDBLOCK, 0, 0, [REG_AUXMR, if synchronous then AUX_TCS else AUX_TCA], rc.Ok?)]
      ensures C() == if rc.Ok? then old(C()).(command := true) else old(C())
      ensures !rc.Ok? ==> Codes(rc, usb.Past(1))
    {
      rc := ControlOut(REQ_CMDBLOCK, 0, 0, [REG_AUXMR, if synchronous then AUX_TCS else AUX_TCA]);
    }

    /** The firmware's own request, asked twice at most; success is a status that says DONE. */
    method GoToStandby() returns (rc: Rc, ghost d: seq<Event>)
      requires Valid()
      modifies usb`next, usb`log
      ensures Valid() && usb.log == old(usb.log) + d && Asked(d, REQ_GTS, 2, NotReleased)
      ensures StandbyOutcome(rc, d, usb.Past(1))
      ensures C().AtMostReleased(old(C())) && (rc.Ok? ==> !C().command)
    {
      var done;
      rc, done, d := AskStandby();
      if !rc.Ok? || done {
        return;
      }
      ghost var first, second := d, d;
      rc, second := AskStandbyAgain();
      d := first + second;
      AskedTwice(first, second, REQ_GTS, 2, NotReleased);
      Associative(old(usb.log), first, second);
      LastDecides(rc, first, second, usb.Past(1));
    }

    /** The second attempt is the last: a bad status fails it. */
    method AskStandbyAgain() returns (rc: Rc, ghost d: seq<Event>)
      modifies usb`next, usb`log
      ensures usb.log == old(usb.log) + d && AskedOnce(d, REQ_GTS, 2) && StandbyOutcome(rc, d, usb.Past(1))
      ensures C().AtMostReleased(old(C())) && (rc.Ok? ==> !C().command)
    {
      var done;
      rc, done, d := AskStandby();
      if rc.Ok? && !done {
        rc := IoError;
      }
    }

    /** Success is a status that says DONE, and a failure has the code of a refused request, or
        that of a bad status. */
    static predicate StandbyOutcome(rc: Rc, d: seq<Event>, last: Reply) {
      && d != [] && (rc.Ok? <==> StandbyDone(d))
      && (!rc.Ok? ==> if d[|d| - 1].ControlOut? then Codes(rc, last) else rc.IoError?)
    }

    static lemma LastDecides(rc: Rc, first: seq<Event>, second: seq<Event>, last: Reply)
      requires StandbyOutcome(rc, second, last)
      ensures StandbyOutcome(rc, first + second, last)
    {
    }

    static predicate StandbyDone(d: seq<Event>) {
      d != [] && IsPoll(d[|d| - 1], 2) && !NotReleased(d[|d| - 1])
    }

    /** One attempt: only a refused request fails, a bad status just is not DONE. */
    method AskStandby() returns (rc: Rc, done: bool, ghost d: seq<Event>)
      modifies usb`next, usb`log
      ensures usb.log == old(usb.log) + d && AskedOnce(d, REQ_GTS, 2)
      ensures done ==> rc.Ok? && !C().command
      ensures done <==> StandbyDone(d)
      ensures if rc.Ok? then |d| == 2 else |d| == 1 && Codes(rc, usb.Past(1))
      ensures C().AtMostReleased(old(C()))
    {
      done := false;
      rc := ControlOut(REQ_GTS, 0, 0, []);
      d := [Event.ControlOut(REQ_GTS, 0, 0, [], rc.Ok?)];
      if !rc.Ok? {
        return;
      }
      var src, got := ControlIn(REQ_STATUS, 0, 2);
      d := d + [Event.ControlIn(REQ_STATUS, 0, 2, got, src.Ok?)];
      done := src.Ok? && |got| >= 1 && got[0] == STATE_DONE;
    }

    /** Release ATN, with the register poke to fall back on exactly if the firmware did not. */
    method ReleaseAtn() returns (rc: Rc, ghost d: seq<Event>)
      requires Valid()
      modifies usb`next, usb`log
      ensures Valid() && Asked(d, REQ_GTS, 2, NotReleased)
      ensures if StandbyDone(d) then rc.Ok? && usb.log == old(usb.log) + d
              else usb.log == old(usb.log) + d + [Event.ControlOut(REQ_REG, REG_AUXMR, 0, [AUX_GTS], rc.Ok?)]
      ensures C().AtMostReleased(old(C()))
      ensures rc.Ok? ==> !C().command
      ensures !rc.Ok? ==> Codes(rc, usb.Past(1))
    {
      rc, d := GoToStandby();
      if !rc.Ok? {
        rc := WriteRawRegister(REG_AUXMR, AUX_GTS);
      }
    }

    /** The bus lines, all of them reported as valid. */
    method ReadBusLines() returns (rc: Rc, lines: nat)
      requires Valid()
      modifies usb`next, usb`log
      ensures Valid() && C() == old(C())
      ensures |usb.log| == |old(usb.log)| + 1 && old(usb.log) <= usb.log && IsRead(usb.log[|old(usb.log)|], 0x107)
      ensures (rc.Ok? <==> Yields(old(usb.Upcoming(0)))) && (!rc.Ok? ==> Codes(rc, usb.Past(1)))
      ensures rc.Ok? ==> lines == BusLines.Lines(old(usb.Upcoming(0)).data[0])
    {
      var v;
      rc, v := ReadRawRegister(REG_BUS_LINES);
      lines := if rc.Ok? then BusLines.Lines(v) else 0;
    }

    /** Any run of the register pipeline, against any device, keeps the holdoff discipline
        (see DisciplineOnLog, CommandsOnLog and CleanExactly for what that means on the log),
        and no read of the run that starts with END latched reports END. The
        events of operation `i` are those from `marks[i]` up to `marks[i + 1]`. */
    method RunRegisters(ops: seq<Op>) returns (ends: seq<byte>, ghost marks: seq<nat>)
      requires Valid()
      modifies usb`next, usb`log, this`rfdHoldoffPending, this`renAsserted
      ensures Valid() && Disciplined(usb.log, usb.ended) && old(usb.log) <= usb.log
      ensures |ends| == |ops| && |marks| == |ops| + 1 && marks[0] == |old(usb.log)| && marks[|ops|] == |usb.log|
      ensures forall i :: 0 <= i < |ops| ==> Trusted(ops, ends, marks, usb.log, i)
    {
      ends, marks := [], [|usb.log|];
      for i := 0 to |ops|
        invariant Valid() && old(usb.log) <= usb.log
        invariant |ends| == i && |marks| == i + 1 && marks[0] == |old(usb.log)| && marks[i] == |usb.log|
        invariant forall k :: 0 <= k < i ==> Trusted(ops, ends, marks, usb.log, k)
      {
        ghost var before := usb.log;
        var end := Perform(ops[i]);
        forall k | 0 <= k < i
          ensures Trusted(ops, ends + [end], marks + [|usb.log|], usb.log, k)
        {
          assert Trusted(ops, ends, marks, before, k);
          assert usb.log[..marks[k + 1]] == before[..marks[k + 1]];
        }
        assert usb.log[..|usb.log|] == usb.log;
        ends, marks := ends + [end], marks + [|usb.log|];
        assert Trusted(ops, ends, marks, usb.log, i);
      }
    }

    method Perform(op: Op) returns (end: byte)
      requires Valid()
      modifies usb`next, usb`log, this`rfdHoldoffPending, this`renAsserted
      ensures Valid() && old(usb.log) <= usb.log
      ensures TrustsEnd(op, end, usb.log, |old(usb.log)|)
    {
      end := 0;
      match op {
        case Commands(cmds) =>
          var _, _ := SendCommandBytesViaRegisters(cmds);
        case Write(data, eoi, us) =>
          var _, _, _ := WriteDataViaRegisters(data, eoi, us);
        case Read(count, eosChar, eosFlags, us) =>
          var buf := new byte[count];
          var rc, got, e, _ := ReadDataViaRegisters(buf, count, eosChar, eosFlags, us);
          end := e;
        case SoftReset =>
          var _, _ := RunBringUpSequence();
        case Ren(on) =>
          var _ := SetRemoteEnable(on);
        case Ifc =>
          var _, _, _ := PulseInterfaceClear();
        case TakeControl(synchronous) =>
          var _ := TakeControl(synchronous);
        case ReleaseAtn =>
          var _, _ := ReleaseAtn();
        case ReadLines =>
          var _, _ := ReadBusLines();
      }
    }
  }

  /** The same of operation `i` of a run. */
  ghost predicate Trusted(ops: seq<Op>, ends: seq<byte>, marks: seq<nat>, log: seq<Event>, i: nat) {
    && i < |ops| && i < |ends| && i + 1 < |marks| && marks[i] <= marks[i + 1] <= |log|
    && TrustsEnd(ops[i], ends[i], log[..marks[i + 1]], marks[i])
  }

  /** END is not reported by a read whose first look at ISR1 found it latched. */
  ghost predicate TrustsEnd(op: Op, end: byte, log: seq<Event>, from: nat) {
    op.Read? && StartsLatched(log, from) ==> end == 0
  }

  datatype Op =
    | Commands(cmds: seq<byte>) | Write(data: seq<byte>, eoi: bool, us: u32)
    | Read(count: nat, eosChar: byte, eosFlags: byte, us: u32) | SoftReset | Ren(on: bool) | Ifc
    | TakeControl(synchronous: bool) | ReleaseAtn | ReadLines
}
