/**
 Why a transfer failed, read off the traffic and the clock: each predicate describes how the log
 ends, and a transfer reports success exactly if none of its own applies.
 */
module Causes {
  import opened Bytes
  import opened Usb
  import opened Trace

  const POLL_LIMIT := 100_000
  const GLITCH_BUDGET_NS := 500_000_000
  const ERR_ABORTED: byte := 5

  const STATUS_LEN_CMD := 7
  const STATUS_LEN_WRITE := 6
  const STATUS_LEN_READ := 0x0B
  const COUNT_WIDTH_CMD := 2
  const COUNT_WIDTH_DATA := 4

  const ADSR_NATN := 0x40
  const ISR1_DI := 0x01
  const ISR1_DO := 0x02
  const ISR2_CO := 0x08

  // ----- Status polls -----

  function StatusCount(status: seq<byte>, width: nat): (n: nat)
    requires |status| >= 4 && (width == 4 ==> |status| >= 6)
    ensures n < 0x1_0000_0000
  {
    if width == 4 then Value32(status[2..6]) else status[2] as int + status[3] as int * 0x100
  }

  /** The block's count field, from its third byte on, is `n` with the low byte first; whatever
      stands behind the field does not matter. */
  predicate Encodes(status: seq<byte>, width: nat, n: nat)
    requires 2 + width <= |status| && width <= 4 && n < 0x1_0000_0000
  {
    status[2..2 + width] == Bytes32(n)[..width] && (width == 2 ==> n < 0x1_0000)
  }

  /** A field has exactly one value, and that is what is decoded from it. */
  lemma CountDecodes(status: seq<byte>, width: nat, n: nat)
    requires |status| >= 6 && (width == 2 || width == 4) && n < 0x1_0000_0000
    ensures Encodes(status, width, n) <==> StatusCount(status, width) == n
  {
    var field, b := status[2..2 + width], Bytes32(n);
    assert forall i :: 0 <= i < width ==> field[i] == status[2 + i] && b[..width][i] == b[i];
    Bytes32RoundTrip(n);
    if width == 2 && StatusCount(status, 2) == n {
      assert n % 0x100 == status[2] && n / 0x100 == status[3];
      assert field == b[..2];
    } else if width == 4 && StatusCount(status, 4) == n {
      SameDigits(status[2..6], b);
      assert field == b[..4];
    }
  }

  lemma SameDigits(s: seq<byte>, t: seq<byte>)
    requires |s| == |t| == 4 && Value32(s) == Value32(t)
    ensures s == t
  {
    var a, b := Value24(s), Value24(t);
    assert a < 0x100_0000 && b < 0x100_0000;
    assert s[3] == t[3] && a == b;
    assert s[2] == t[2];
    assert s[1] == t[1];
  }

  /** The code of a request that failed with this reply. */
  predicate Codes(rc: Rc, r: Reply) {
    match r.kr
    case TimedOut => rc.TimedOut?
    case Aborted => rc.Aborted?
    case NotOpen => rc.NotReady?
    case Failed => rc.IoError?
    case Success => rc.IoError?
  }

  /** A status poll for `len` bytes. */
  predicate IsPoll(ev: Event, len: nat) {
    ev.ControlIn? && ev.request == REQ_STATUS && ev.wValue == 0 && ev.len == len
  }

  /** It failed or came back short. */
  predicate IsGlitch(ev: Event, len: nat) {
    IsPoll(ev, len) && (!ev.ok || |ev.got| < len)
  }

  predicate IsAnswer(ev: Event, len: nat) {
    IsPoll(ev, len) && ev.ok && |ev.got| == len
  }

  /** A poll after which the wait goes on. */
  predicate Waits(ev: Event, len: nat)
    requires len > 0
  {
    IsGlitch(ev, len) || (IsAnswer(ev, len) && ev.got[0] == STATE_BUSY)
  }

  predicate IsDone(ev: Event, len: nat)
    requires len > 0
  {
    IsAnswer(ev, len) && ev.got[0] == STATE_DONE
  }

  predicate IsAbort(ev: Event) {
    ev.ControlOut? && ev.request == REQ_ABORT
  }

  /** The last reading of the clock is past the deadline set at reading `from`. */
  predicate Overdue(clock: nat -> nat, from: nat, to: nat, us: u32) {
    us != 0 && from + 1 < to && clock(to - 1) > clock(from) + us * 1000
  }

  /** Nothing but glitches for longer than the budget: from event `g`, at reading `s`, to the
      last event and the last reading. An unsigned difference also counts as too long when the
      clock has gone back. */
  predicate GlitchRun(log: seq<Event>, len: nat, clock: nat -> nat, to: nat, g: nat, s: nat) {
    && g < |log| - 1 && s + 1 < to
    && (forall k :: g <= k < |log| ==> IsGlitch(log[k], len))
    && (clock(to - 1) < clock(s) || clock(to - 1) - clock(s) > GLITCH_BUDGET_NS)
  }

  ghost predicate GlitchedOut(log: seq<Event>, from: nat, len: nat, clock: nat -> nat, t0: nat, t1: nat) {
    exists g, s :: from <= g && t0 <= s && GlitchRun(log, len, clock, t1, g, s)
  }

  function StatusRc(status: seq<byte>): Rc
    requires |status| >= 2
  {
    if status[0] == STATE_DONE then Ok else if status[1] == ERR_ABORTED then Rc.TimedOut else IoError
  }

  /** How a wait for the status ended that began at event `from` and clock reading `t0`: all polls
      but the last kept it waiting, and the last event decides. */
  ghost predicate WaitEnds(log: seq<Event>, from: nat, len: nat, clock: nat -> nat, t0: nat, t1: nat, us: u32,
                           rc: Rc, status: seq<byte>)
    requires len >= 2
  {
    && from < |log| && (forall k :: from <= k < |log| - 1 ==> Waits(log[k], len))
    && var last := log[|log| - 1];
       if IsAbort(last) then
         rc.TimedOut? && status == [] && (Overdue(clock, t0, t1, us) || |log| - 1 - from == POLL_LIMIT)
       else if IsGlitch(last, len) then rc.IoError? && status == [] && GlitchedOut(log, from, len, clock, t0, t1)
       else
         && IsAnswer(last, len) && status == last.got && status[0] != STATE_BUSY
         && rc == StatusRc(status)
  }

  ghost predicate AllWait(log: seq<Event>, from: nat, len: nat)
    requires len > 0
  {
    forall k :: from <= k < |log| ==> Waits(log[k], len)
  }

  /** The run of glitches that is under way began at event `g`, when the clock read `start`. */
  ghost predicate GlitchesFrom(log: seq<Event>, from: nat, len: nat, clock: nat -> nat, t0: nat, t1: nat,
                               g: nat, s: nat, start: nat)
  {
    && from <= g < |log| && t0 <= s < t1 && clock(s) == start
    && forall k :: g <= k < |log| ==> IsGlitch(log[k], len)
  }

  ghost predicate DeadlineSet(deadline: nat, clock: nat -> nat, t0: nat, t1: nat, us: u32) {
    if us == 0 then deadline == 0 else t0 < t1 && deadline == clock(t0) + us * 1000
  }

  lemma MoreWait(log: seq<Event>, ev: Event, from: nat, len: nat)
    requires len > 0 && AllWait(log, from, len) && Waits(ev, len)
    ensures AllWait(log + [ev], from, len)
  {
  }

  lemma MoreGlitches(log: seq<Event>, ev: Event, from: nat, len: nat, clock: nat -> nat, t0: nat, t: nat, t1: nat,
                     g: nat, s: nat, start: nat)
    requires GlitchesFrom(log, from, len, clock, t0, t, g, s, start) && IsGlitch(ev, len) && t <= t1
    ensures GlitchesFrom(log + [ev], from, len, clock, t0, t1, g, s, start)
  {
  }

  lemma WaitAborted(log: seq<Event>, ok: bool, from: nat, len: nat, clock: nat -> nat, t0: nat, t1: nat, us: u32)
    requires len >= 2 && from <= |log| && AllWait(log, from, len)
    requires Overdue(clock, t0, t1, us) || |log| - from == POLL_LIMIT
    ensures WaitEnds(log + [Event.ControlOut(REQ_ABORT, 0, 0, [], ok)], from, len, clock, t0, t1, us, Rc.TimedOut, [])
  {
  }

  lemma WaitGlitched(log: seq<Event>, ev: Event, from: nat, len: nat, clock: nat -> nat, t0: nat, t1: nat,
                     us: u32, g: nat, s: nat)
    requires len >= 2 && from <= |log| && AllWait(log, from, len) && IsGlitch(ev, len)
    requires from <= g && t0 <= s && GlitchRun(log + [ev], len, clock, t1, g, s)
    ensures WaitEnds(log + [ev], from, len, clock, t0, t1, us, IoError, [])
  {
    assert GlitchedOut(log + [ev], from, len, clock, t0, t1);
  }

  lemma WaitAnswered(log: seq<Event>, ev: Event, from: nat, len: nat, clock: nat -> nat, t0: nat, t1: nat, us: u32)
    requires len >= 2 && from <= |log| && AllWait(log, from, len) && IsAnswer(ev, len) && ev.got[0] != STATE_BUSY
    ensures WaitEnds(log + [ev], from, len, clock, t0, t1, us, StatusRc(ev.got), ev.got)
  {
  }

  // ----- Armed transfers -----

  predicate ArmRefused(log: seq<Event>, request: byte) {
    && log != [] && log[|log| - 1].ControlOut? && log[|log| - 1].request == request
    && !log[|log| - 1].ok
  }

  /** The last four events are an abort and the clearing of all three pipes. */
  predicate EndsInRecovery(log: seq<Event>) {
    && |log| >= 4 && IsAbort(log[|log| - 4])
    && log[|log| - 3] == ClearStall(DataOut) && log[|log| - 2] == ClearStall(CmdOut)
    && log[|log| - 1] == ClearStall(DataIn)
  }

  predicate IsBadBulk(ev: Event, pipe: Pipe) {
    ev.BulkOut? && ev.pipe == pipe && (!ev.ok || ev.accepted == [])
  }

  predicate BulkFailed(log: seq<Event>, pipe: Pipe) {
    |log| >= 5 && EndsInRecovery(log) && IsBadBulk(log[|log| - 5], pipe)
  }

  /** A wait that began at or after `from` and `t0` ended without success. */
  ghost predicate WaitFailed(log: seq<Event>, from: nat, len: nat, clock: nat -> nat, t0: nat, t1: nat, us: u32)
    requires len >= 2
  {
    exists p, t, rc: Rc, status ::
      from <= p && t0 <= t && rc != Ok && WaitEnds(log, p, len, clock, t, t1, us, rc, status)
  }

  lemma WaitFailedSince(log: seq<Event>, from: nat, p: nat, len: nat, clock: nat -> nat, t0: nat, t1: nat, us: u32,
                        rc: Rc, status: seq<byte>)
    requires len >= 2 && from <= p && rc != Ok && WaitEnds(log, p, len, clock, t0, t1, us, rc, status)
    ensures WaitFailed(log, from, len, clock, t0, t1, us)
  {
  }

  /** The arm request was refused, a bulk transfer failed or moved nothing, or the wait failed. */
  ghost predicate TransferFailed(log: seq<Event>, from: nat, request: byte, pipe: Pipe, len: nat,
                                 clock: nat -> nat, t0: nat, t1: nat, us: u32)
    requires len >= 2
  {
    ArmRefused(log, request) || BulkFailed(log, pipe) || WaitFailed(log, from, len, clock, t0, t1, us)
  }

  lemma DoneIsNoFailure(log: seq<Event>, from: nat, request: byte, pipe: Pipe, len: nat,
                        clock: nat -> nat, t0: nat, t1: nat, us: u32)
    requires len >= 2 && log != [] && IsDone(log[|log| - 1], len)
    ensures !TransferFailed(log, from, request, pipe, len, clock, t0, t1, us)
  {
  }

  lemma FailedSince(log: seq<Event>, from: nat, later: nat, request: byte, pipe: Pipe, len: nat,
                    clock: nat -> nat, t0: nat, t: nat, t1: nat, us: u32)
    requires len >= 2 && from <= later && t0 <= t
    requires TransferFailed(log, later, request, pipe, len, clock, t, t1, us)
    ensures TransferFailed(log, from, request, pipe, len, clock, t0, t1, us)
  {
    if WaitFailed(log, later, len, clock, t, t1, us) {
      var p, s, rc: Rc, status :|
        later <= p && t <= s && rc != Ok && WaitEnds(log, p, len, clock, s, t1, us, rc, status);
      assert WaitEnds(log, p, len, clock, s, t1, us, rc, status);
    }
  }

  /** The code of a transfer that failed: that of the reply to the request that was refused or
      bad, `last` without and `earlier` with a recovery since, or what the wait ended in. */
  predicate FailureCode(rc: Rc, log: seq<Event>, request: byte, pipe: Pipe, len: nat, last: Reply, earlier: Reply)
    requires len >= 2 && log != []
  {
    var ev := log[|log| - 1];
    if ArmRefused(log, request) then Codes(rc, last)
    else if BulkFailed(log, pipe) then Codes(rc, earlier)
    else if IsAbort(ev) || (IsAnswer(ev, len) && ev.got[1] == 5) then rc.TimedOut?
    else rc.IoError?
  }

  lemma WaitCode(log: seq<Event>, from: nat, len: nat, clock: nat -> nat, t0: nat, t1: nat, us: u32,
                 rc: Rc, status: seq<byte>, request: byte, pipe: Pipe, last: Reply, earlier: Reply)
    requires len >= 2 && WaitEnds(log, from, len, clock, t0, t1, us, rc, status) && rc != Ok && request != REQ_ABORT
    ensures FailureCode(rc, log, request, pipe, len, last, earlier)
  {
  }

  /** The size of the chunk that ends after `n` bytes, when `m` is the largest (0: no limit). */
  function LastChunk(n: nat, m: nat): (k: nat)
    ensures k <= n
  {
    if m == 0 || n <= m then n else LastChunk(n - m, m)
  }

  /** `n` is made of whole chunks, so that whatever comes next is a chunk of its own. */
  ghost predicate WholeChunks(n: nat, m: nat) {
    if m == 0 then n == 0 else forall k: nat :: n < k <= n + m ==> LastChunk(k, m) == k - n
  }

  lemma NextChunk(n: nat, chunk: nat, m: nat)
    requires WholeChunks(n, m) && 0 < chunk && (m == 0 || chunk <= m)
    ensures LastChunk(n + chunk, m) == chunk
    ensures chunk == m ==> WholeChunks(n + chunk, m)
  {
    if chunk == m {
      forall k: nat | n + m < k <= n + m + m
        ensures LastChunk(k, m) == k - (n + m)
      {
        assert LastChunk(k, m) == LastChunk(k - m, m);
      }
    }
  }

  /** The log ends in a DONE status with this count. */
  predicate Counted(log: seq<Event>, len: nat, width: nat, count: nat)
    requires len >= 6 && width <= 4 && count < 0x1_0000_0000
  {
    log != [] && IsDone(log[|log| - 1], len) && Encodes(log[|log| - 1].got, width, count)
  }

  /** The transfer is reported done with a count other than that of its chunk. */
  predicate Miscounted(log: seq<Event>, len: nat, width: nat, chunk: nat)
    requires len >= 6 && width <= 4 && chunk < 0x1_0000_0000
  {
    log != [] && IsDone(log[|log| - 1], len) && !Encodes(log[|log| - 1].got, width, chunk)
  }

  lemma CountedOtherwise(log: seq<Event>, len: nat, width: nat, count: nat, chunk: nat)
    requires len >= 6 && (width == 2 || width == 4) && count < 0x1_0000_0000 && chunk < 0x1_0000_0000
    requires Counted(log, len, width, count)
    ensures Miscounted(log, len, width, chunk) <==> count != chunk
  {
    CountDecodes(log[|log| - 1].got, width, count);
    CountDecodes(log[|log| - 1].got, width, chunk);
  }

  /** A chunk of a longer message is done, with its own count or another. */
  lemma ChunkDone(log: seq<Event>, len: nat, width: nat, done: nat, count: nat, chunk: nat, m: nat)
    requires len >= 6 && (width == 2 || width == 4) && count < 0x1_0000_0000 && done + chunk < 0x1_0000_0000
    requires WholeChunks(done, m) && 0 < chunk && (m == 0 || chunk <= m) && Counted(log, len, width, count)
    ensures chunk == m ==> WholeChunks(done + chunk, m)
    ensures LastChunk(done + chunk, m) < 0x1_0000_0000
    ensures if count == chunk then Counted(log, len, width, LastChunk(done + chunk, m))
            else Miscounted(log, len, width, LastChunk(done + chunk, m))
  {
    NextChunk(done, chunk, m);
    CountedOtherwise(log, len, width, count, chunk);
  }

  // ----- Reads through the engine -----

  predicate IsReadGlitch(ev: Event) {
    IsPoll(ev, STATUS_LEN_READ) && (!ev.ok || |ev.got| < STATUS_MIN_READ)
  }

  predicate IsReadError(ev: Event) {
    && IsPoll(ev, STATUS_LEN_READ) && ev.ok && |ev.got| >= STATUS_MIN_READ
    && ev.got[0] != STATE_DONE && ev.got[0] != STATE_BUSY
  }

  predicate GlitchesBefore(log: seq<Event>, n: nat, count: nat)
    requires n <= |log|
  {
    count <= n && forall k :: n - count <= k < n ==> IsReadGlitch(log[k])
  }

  predicate IsBusyRead(ev: Event) {
    IsPoll(ev, STATUS_LEN_READ) && ev.ok && |ev.got| >= STATUS_MIN_READ && ev.got[0] == STATE_BUSY
  }

  lemma OneGlitchMore(log: seq<Event>, ev: Event, n: nat)
    requires GlitchesBefore(log, |log|, n)
    ensures IsReadGlitch(ev) ==> GlitchesBefore(log + [ev], |log| + 1, n + 1)
  {
  }

  /** A bulk-in failed, six status polls in a row glitched, or the status reported an error; the
      engine was recovered. */
  predicate ReadFailed(log: seq<Event>) {
    && |log| >= 5 && EndsInRecovery(log)
    && var n := |log| - 4;
       (log[n - 1].BulkIn? && !log[n - 1].ok) || GlitchesBefore(log, n, 6) || IsReadError(log[n - 1])
  }

  /** The code of a read that failed: that of the reply to its refused arming or failed bulk-in,
      or what the last status said. */
  predicate ReadCode(rc: Rc, log: seq<Event>, last: Reply, earlier: Reply)
  {
    if ArmRefused(log, REQ_BEGIN_READ) then Codes(rc, last)
    else
      && |log| >= 5
      && var ev := log[|log| - 5];
         if ev.BulkIn? then Codes(rc, earlier)
         else if IsReadError(ev) && ev.got[1] == 5 then rc.TimedOut?
         else rc.IoError?
  }

  // ----- The register path -----

  /** A role was declared, and before that the bit waited for did not show. */
  predicate GaveUp(log: seq<Event>, spins: nat) {
    && log != [] && IsNeutral(log[|log| - 1])
    && (var before := log[..|log| - 1];
        || Unseen(before, REG_ADMR, ADSR_NATN, true, 500)
        || Unseen(before, REG_ISR1, ISR1_DO, true, spins) || Unseen(before, REG_ISR1, ISR1_DI, true, spins))
  }

  /** Neither talker nor listener any more. */
  predicate IsNeutral(ev: Event) {
    ev.ControlOut? && ev.request == REQ_REG && ev.wValue == REG_ADMR && ev.data == [ADMR_TRM]
  }

  predicate RegisterFailed(log: seq<Event>, spins: nat) {
    RefusedWrite(log) || GaveUp(log, spins)
  }

  /** The code of a transfer that failed: that of the reply to a refused write, or by the bit that
      did not show, which is the one read before the role was given up. */
  predicate RegisterCode(rc: Rc, log: seq<Event>, last: Reply, starved: Rc) {
    && log != []
    && if !IsNeutral(log[|log| - 1]) then Codes(rc, last)
       else |log| >= 2 && if IsRead(log[|log| - 2], REG_ADMR) then rc.Aborted? else rc == starved
  }

  predicate CommandCode(rc: Rc, log: seq<Event>, last: Reply) {
    && log != []
    && if log[|log| - 1].ControlOut? then Codes(rc, last)
       else if IsRead(log[|log| - 1], REG_ADMR) then rc.TimedOut? else rc.NoListener?
  }

  predicate CommandFailed(log: seq<Event>) {
    || RefusedWrite(log)
    || Unseen(log, REG_ADMR, ADSR_NATN, false, 200) || Unseen(log, REG_ISR2, ISR2_CO, true, 200)
  }

  /** The last thing seen is that the core took a command byte. */
  predicate SawCommandOut(log: seq<Event>) {
    log != [] && ReadsBit(log[|log| - 1], REG_ISR2, ISR2_CO)
  }

  lemma SeenIsNoFailure(log: seq<Event>)
    requires SawCommandOut(log)
    ensures !CommandFailed(log)
  {
    var n := |log| - 1;
    assert !Unanswered(log[n], REG_ADMR, ADSR_NATN, false) && !Unanswered(log[n], REG_ISR2, ISR2_CO, true);
  }
}
