/**
 The adapter's USB device: every control and bulk request is answered from a finite script
 of arbitrary replies, after which the device is unplugged and every request fails. Being
 finite but of any length and content, the scripts cover every finite behaviour of every
 device. A log records all traffic.
 */
module Usb {
  import opened Bytes

  datatype KernReturn = Success | TimedOut | Aborted | NotOpen | Failed

  datatype Reply = Reply(kr: KernReturn, count: nat, data: seq<byte>)

  datatype Pipe = DataOut | CmdOut | DataIn

  /** What the adapter sees of a request, with the size and the timeout in milliseconds of a bulk
      transfer. */
  datatype Event =
    | ControlOut(request: byte, wValue: nat, wIndex: nat, data: seq<byte>, ok: bool)
    | ControlIn(request: byte, wValue: nat, len: nat, got: seq<byte>, ok: bool)
    | BulkOut(pipe: Pipe, size: nat, ms: nat, accepted: seq<byte>, ok: bool)
    | BulkIn(pipe: Pipe, size: nat, ms: nat, got: seq<byte>, ok: bool)
    | ClearStall(pipe: Pipe)

  /** The reply to a request that sends `n` bytes means that they were taken. */
  predicate Accepts(r: Reply, n: nat) {
    r.kr.Success? && r.count == n
  }

  /** The reply to a request for one byte holds one. */
  predicate Yields(r: Reply) {
    r.kr.Success? && |r.data| >= 1
  }

  /** `ended` tells what no reply shows: whether the byte that waits at event number `i`, should
      that be a read of the data register, had come with END on the bus. */
  class Device {
    const script: seq<Reply>
    const clock: nat -> nat
    ghost const ended: nat -> bool
    var next: nat
    var ticks: nat
    ghost var log: seq<Event>

    constructor (script: seq<Reply>, clock: nat -> nat, ghost ended: nat -> bool)
      ensures this.script == script && this.clock == clock && this.ended == ended
      ensures next == ticks == 0 && log == []
    {
      this.script, this.clock, this.ended := script, clock, ended;
      next, ticks, log := 0, 0, [];
    }

    function Left(): (n: nat)
      reads this`next
    {
      if next <= |script| then |script| - next else 0
    }

    /** The reply to the request after the next `k`. */
    function Upcoming(k: nat): Reply
      reads this`next
    {
      if next + k < |script| then script[next + k] else Reply(NotOpen, 0, [])
    }

    /** The reply to the `k`-th last request. */
    function Past(k: nat): Reply
      reads this`next
    {
      if 0 < k <= next && next - k < |script| then script[next - k] else Reply(NotOpen, 0, [])
    }

    method Answer() returns (r: Reply)
      modifies this`next
      ensures r == old(Upcoming(0)) && next == old(next) + 1
      ensures r.kr.Success? ==> Left() < old(Left())
      ensures Left() <= old(Left())
    {
      r := Upcoming(0);
      next := next + 1;
    }

    method Now() returns (t: nat)
      modifies this`ticks
      ensures t == clock(old(ticks)) && ticks == old(ticks) + 1
    {
      t := clock(ticks);
      ticks := ticks + 1;
    }

    method DeviceRequestOut(request: byte, wValue: nat, wIndex: nat, data: seq<byte>)
      returns (kr: KernReturn, transferred: nat)
      modifies this`next, this`log
      ensures Left() <= old(Left()) && next == old(next) + 1
      ensures kr == old(Upcoming(0)).kr && transferred == old(Upcoming(0)).count
      ensures log == old(log) + [ControlOut(request, wValue, wIndex, data, kr.Success? && transferred == |data|)]
    {
      var r := Answer();
      kr, transferred := r.kr, r.count;
      log := log + [ControlOut(request, wValue, wIndex, data, kr.Success? && transferred == |data|)];
    }

    method DeviceRequestIn(request: byte, wValue: nat, len: nat) returns (kr: KernReturn, got: seq<byte>)
      modifies this`next, this`log
      ensures |got| <= len && (!kr.Success? ==> got == [])
      ensures Left() <= old(Left()) && (kr.Success? ==> Left() < old(Left())) && next == old(next) + 1
      ensures kr == old(Upcoming(0)).kr
      ensures (kr.Success? ==> got == old(Upcoming(0)).data[..Min(|old(Upcoming(0)).data|, len)])
      ensures log == old(log) + [ControlIn(request, wValue, len, got, kr.Success?)]
    {
      var r := Answer();
      kr := r.kr;
      got := if kr.Success? then r.data[..Min(|r.data|, len)] else [];
      log := log + [ControlIn(request, wValue, len, got, kr.Success?)];
    }

    /** A failed bulk-out may still have handed over some of the bytes. */
    method PipeOut(pipe: Pipe, data: seq<byte>, ms: nat) returns (kr: KernReturn, transferred: nat)
      modifies this`next, this`log
      ensures transferred <= |data|
      ensures Left() <= old(Left()) && next == old(next) + 1
      ensures kr == old(Upcoming(0)).kr && transferred == Min(old(Upcoming(0)).count, |data|)
      ensures log == old(log) + [BulkOut(pipe, |data|, ms, data[..transferred], kr.Success?)]
    {
      var r := Answer();
      kr, transferred := r.kr, Min(r.count, |data|);
      log := log + [BulkOut(pipe, |data|, ms, data[..transferred], kr.Success?)];
    }

    method PipeIn(pipe: Pipe, capacity: nat, ms: nat) returns (kr: KernReturn, got: seq<byte>)
      modifies this`next, this`log
      ensures |got| <= capacity && (!kr.Success? ==> got == []) && kr == old(Upcoming(0)).kr
      ensures Left() <= old(Left()) && (kr.Success? ==> Left() < old(Left())) && next == old(next) + 1
      ensures log == old(log) + [BulkIn(pipe, capacity, ms, got, kr.Success?)]
    {
      var r := Answer();
      kr := r.kr;
      got := if kr.Success? then r.data[..Min(|r.data|, capacity)] else [];
      log := log + [BulkIn(pipe, capacity, ms, got, kr.Success?)];
    }

    method ClearHalt(pipe: Pipe)
      modifies this`log
      ensures log == old(log) + [ClearStall(pipe)]
    {
      log := log + [ClearStall(pipe)];
    }
  }
}
