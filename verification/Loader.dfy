/**
 The firmware download at attach: the driver's loader and its user-space twin, on a device
 any of whose requests may fail.
 */
module Loader {
  import opened Bytes

  const REQ_RAM: byte := 0xA0
  const REQ_EXTRAM: byte := 0xA3
  const REQ_FPGA: byte := 0xA4
  const CPUCS_ADDR := 0xE600
  const CHUNK := 0x1000
  const ADDRESS_SPACE := 0x1_0000
  const EXTRAM_BASE := 0x4000
  const LEGACY_BCD_DEVICE := 4

  datatype Request = Request(code: byte, wValue: nat, wIndex: nat, data: seq<byte>)

  datatype Images = Images(fpga: seq<byte>, extRam: seq<byte>, main: seq<byte>)

  const BEGIN := Request(REQ_FPGA, 0, 0, [])
  const HOLD := Request(REQ_RAM, CPUCS_ADDR, 0, [1])
  const RELEASE := Request(REQ_RAM, CPUCS_ADDR, 0, [0])

  // ----- What should be sent -----

  function Chunks(len: nat): (n: nat)
    ensures (n - 1) * CHUNK < len <= n * CHUNK || len == n == 0
  {
    (len + CHUNK - 1) / CHUNK
  }

  function Chunk(data: seq<byte>, k: nat): seq<byte>
    requires k < Chunks(|data|)
  {
    data[k * CHUNK..Min((k + 1) * CHUNK, |data|)]
  }

  function ChunkedRequests(code: byte, base: nat, data: seq<byte>): (r: seq<Request>)
    ensures |r| == Chunks(|data|)
  {
    seq(Chunks(|data|), k requires 0 <= k < Chunks(|data|) =>
      Request(code, (base + k * CHUNK) % ADDRESS_SPACE, 0, Chunk(data, k)))
  }

  function BitstreamRequests(data: seq<byte>): (r: seq<Request>)
    ensures |r| == Chunks(|data|) + 1
  {
    [BEGIN] + seq(Chunks(|data|), k requires 0 <= k < Chunks(|data|) =>
      Request(REQ_FPGA, 1, if k == Chunks(|data|) - 1 then 1 else 0, Chunk(data, k)))
  }

  lemma BitstreamRequest(data: seq<byte>, k: nat, offset: nat, end: nat)
    requires offset == Min(k * CHUNK, |data|) < |data| && end == Min(offset + CHUNK, |data|)
    ensures k + 1 < |BitstreamRequests(data)|
    ensures BitstreamRequests(data)[k + 1] == Request(REQ_FPGA, 1, if end == |data| then 1 else 0, data[offset..end])
    ensures end == Min((k + 1) * CHUNK, |data|) && (end == |data| <==> k + 2 == |BitstreamRequests(data)|)
  {
  }

  function DataOf(reqs: seq<Request>): seq<byte> {
    if reqs == [] then [] else DataOf(reqs[..|reqs| - 1]) + reqs[|reqs| - 1].data
  }

  /** Nothing is lost, repeated or reordered, and every piece fits the buffer. */
  lemma {:induction false} ChunksCarryAll(data: seq<byte>, reqs: seq<Request>, k: nat)
    requires k <= Chunks(|data|) == |reqs|
    requires forall i :: 0 <= i < |reqs| ==> reqs[i].data == Chunk(data, i)
    ensures DataOf(reqs[..k]) == data[..Min(k * CHUNK, |data|)]
    ensures forall i :: 0 <= i < |reqs| ==> 1 <= |reqs[i].data| <= CHUNK
  {
    if k > 0 {
      ChunksCarryAll(data, reqs, k - 1);
      assert reqs[..k][..k - 1] == reqs[..k - 1];
    }
  }

  lemma DownloadsCarryAll(code: byte, base: nat, data: seq<byte>)
    ensures DataOf(ChunkedRequests(code, base, data)) == data
    ensures DataOf(BitstreamRequests(data)[1..]) == data
    ensures forall r :: r in ChunkedRequests(code, base, data) ==> |r.data| <= CHUNK
    ensures forall i :: 0 <= i < |BitstreamRequests(data)| ==>
      (BitstreamRequests(data)[i].wIndex == 1 <==> i > 0 && i == |BitstreamRequests(data)| - 1)
  {
    var c, b := ChunkedRequests(code, base, data), BitstreamRequests(data)[1..];
    ChunksCarryAll(data, c, |c|);
    ChunksCarryAll(data, b, |b|);
    assert c[..|c|] == c && b[..|b|] == b;
  }

  // ----- What the device memory becomes -----

  predicate Covers(r: Request, addr: nat) {
    (addr - r.wValue) % ADDRESS_SPACE < |r.data|
  }

  /** Memory after a series of writes, each one placing its data from its address upwards. */
  function MemoryAfter(reqs: seq<Request>, before: nat -> byte, addr: nat): byte {
    if reqs == [] then before(addr)
    else
      var last := reqs[|reqs| - 1];
      if Covers(last, addr) then last.data[(addr - last.wValue) % ADDRESS_SPACE]
      else MemoryAfter(reqs[..|reqs| - 1], before, addr)
  }

  lemma WithoutWrapping(addr: nat, start: nat)
    requires addr < ADDRESS_SPACE && start < ADDRESS_SPACE
    ensures (addr - start) % ADDRESS_SPACE == if addr >= start then addr - start else addr - start + ADDRESS_SPACE
  {
  }

  lemma ChunkRequest(code: byte, base: nat, data: seq<byte>, k: nat, from: nat, to: nat)
    requires base + |data| <= ADDRESS_SPACE && k < Chunks(|data|)
    requires from == k * CHUNK && to == Min((k + 1) * CHUNK, |data|)
    ensures from < to <= |data| && from == Min(from, |data|)
    ensures ChunkedRequests(code, base, data)[k] == Request(code, base + from, 0, data[from..to])
  {
  }

  lemma OneMoreWrite(reqs: seq<Request>, r: Request, before: nat -> byte, addr: nat)
    ensures MemoryAfter(reqs + [r], before, addr) ==
      if Covers(r, addr) then r.data[(addr - r.wValue) % ADDRESS_SPACE] else MemoryAfter(reqs, before, addr)
  {
    assert (reqs + [r])[..|reqs|] == reqs;
  }

  /** The addresses that a piece of the image covers, and what it puts there. */
  lemma OneChunk(code: byte, base: nat, data: seq<byte>, from: nat, to: nat, addr: nat)
    requires base + |data| <= ADDRESS_SPACE && addr < ADDRESS_SPACE && from < to <= |data|
    ensures var r, at := Request(code, base + from, 0, data[from..to]), (addr - (base + from)) % ADDRESS_SPACE;
            && (Covers(r, addr) <==> base + from <= addr < base + to)
            && (Covers(r, addr) ==> r.data[at] == data[addr - base])
  {
    WithoutWrapping(addr, base + from);
  }

  lemma {:induction false} MemoryImage(code: byte, base: nat, data: seq<byte>, k: nat, before: nat -> byte, addr: nat)
    requires base + |data| <= ADDRESS_SPACE && addr < ADDRESS_SPACE && k <= Chunks(|data|)
    ensures MemoryAfter(ChunkedRequests(code, base, data)[..k], before, addr) ==
      if base <= addr < base + Min(k * CHUNK, |data|) then data[addr - base] else before(addr)
  {
    if k > 0 {
      var reqs, from, to := ChunkedRequests(code, base, data), (k - 1) * CHUNK, Min(k * CHUNK, |data|);
      MemoryImage(code, base, data, k - 1, before, addr);
      ChunkRequest(code, base, data, k - 1, from, to);
      OneChunk(code, base, data, from, to, addr);
      assert reqs[..k] == reqs[..k - 1] + [reqs[k - 1]];
      OneMoreWrite(reqs[..k - 1], reqs[k - 1], before, addr);
    }
  }

  /** An image that fits below the end of the address space ends up in memory as it is,
      and nothing else changes. */
  lemma ImageInMemory(code: byte, base: nat, data: seq<byte>, before: nat -> byte, addr: nat)
    requires base + |data| <= ADDRESS_SPACE && addr < ADDRESS_SPACE
    ensures MemoryAfter(ChunkedRequests(code, base, data), before, addr) ==
      if base <= addr < base + |data| then data[addr - base] else before(addr)
  {
    var reqs := ChunkedRequests(code, base, data);
    assert reqs[..|reqs|] == reqs;
    MemoryImage(code, base, data, |reqs|, before, addr);
  }

  // ----- What is actually sent, when requests may fail -----

  class Device {
    const fails: nat -> bool
    var trace: seq<Request>

    constructor (fails: nat -> bool)
      ensures this.fails == fails && trace == []
    {
      this.fails, trace := fails, [];
    }

    method VendorWrite(r: Request) returns (ok: bool)
      modifies this
      ensures trace == old(trace) + [r] && ok == !fails(|old(trace)|)
    {
      ok := !fails(|trace|);
      trace := trace + [r];
    }
  }

  /** All requests up to and including the first that fails, the first being number `from`. */
  function Issued(fails: nat -> bool, from: nat, reqs: seq<Request>): seq<Request>
    decreases |reqs|
  {
    if reqs == [] then [] else if fails(from) then [reqs[0]] else [reqs[0]] + Issued(fails, from + 1, reqs[1..])
  }

  predicate AllOk(fails: nat -> bool, from: nat, n: nat) {
    forall j :: from <= j < from + n ==> !fails(j)
  }

  lemma {:induction false} IssuedSplit(fails: nat -> bool, from: nat, a: seq<Request>, b: seq<Request>)
    ensures Issued(fails, from, a + b) ==
      if AllOk(fails, from, |a|) then a + Issued(fails, from + |a|, b) else Issued(fails, from, a)
    decreases |a|
  {
    if a == [] {
      assert a + b == b;
    } else {
      assert (a + b)[1..] == a[1..] + b;
      IssuedSplit(fails, from + 1, a[1..], b);
    }
  }

  /** `reqs` sent in order and given up at the first failure. */
  ghost predicate Sends(d0: seq<Request>, d1: seq<Request>, fails: nat -> bool, reqs: seq<Request>, ok: bool) {
    d1 == d0 + Issued(fails, |d0|, reqs) && ok == AllOk(fails, |d0|, |reqs|)
  }

  /** The loops below have sent the first `k` requests of a series without failure. */
  ghost predicate Sent(d0: seq<Request>, d1: seq<Request>, fails: nat -> bool, reqs: seq<Request>, k: nat) {
    k <= |reqs| && d1 == d0 + reqs[..k] && AllOk(fails, |d0|, k)
  }

  lemma SentAll(d0: seq<Request>, d1: seq<Request>, fails: nat -> bool, reqs: seq<Request>)
    requires Sent(d0, d1, fails, reqs, |reqs|)
    ensures Sends(d0, d1, fails, reqs, true)
  {
    assert reqs[..|reqs|] == reqs + [];
    assert reqs + [] == reqs;
    IssuedSplit(fails, |d0|, reqs, []);
  }

  lemma SentFailure(d0: seq<Request>, d1: seq<Request>, fails: nat -> bool, reqs: seq<Request>, k: nat)
    requires k < |reqs| && Sent(d0, d1, fails, reqs, k) && fails(|d0| + k)
    ensures Sends(d0, d1 + [reqs[k]], fails, reqs, false)
  {
    assert reqs == reqs[..k] + reqs[k..];
    IssuedSplit(fails, |d0|, reqs[..k], reqs[k..]);
  }

  lemma SentOne(d0: seq<Request>, d1: seq<Request>, fails: nat -> bool, reqs: seq<Request>, k: nat)
    requires k < |reqs| && Sent(d0, d1, fails, reqs, k) && !fails(|d0| + k)
    ensures Sent(d0, d1 + [reqs[k]], fails, reqs, k + 1)
  {
    assert reqs[..k] + [reqs[k]] == reqs[..k + 1];
  }

  lemma AllOkSplit(fails: nat -> bool, from: nat, m: nat, n: nat)
    ensures AllOk(fails, from, m + n) <==> AllOk(fails, from, m) && AllOk(fails, from + m, n)
  {
  }

  lemma Length(d0: seq<Request>, d1: seq<Request>, fails: nat -> bool, reqs: seq<Request>)
    requires Sends(d0, d1, fails, reqs, true)
    ensures d1 == d0 + reqs
  {
    assert reqs == reqs + [];
    IssuedSplit(fails, |d0|, reqs, []);
  }

  lemma SendsBoth(d0: seq<Request>, d1: seq<Request>, d2: seq<Request>,
                  fails: nat -> bool, a: seq<Request>, b: seq<Request>, ok: bool)
    requires Sends(d0, d1, fails, a, true) && Sends(d1, d2, fails, b, ok)
    ensures Sends(d0, d2, fails, a + b, ok)
  {
    Length(d0, d1, fails, a);
    assert |d1| == |d0| + |a|;
    IssuedSplit(fails, |d0|, a, b);
    AllOkSplit(fails, |d0|, |a|, |b|);
    assert Issued(fails, |d0|, a + b) == a + Issued(fails, |d1|, b);
    Associative(d0, a, Issued(fails, |d1|, b));
  }

  lemma SendsFailed(d0: seq<Request>, d1: seq<Request>, fails: nat -> bool, a: seq<Request>, b: seq<Request>)
    requires Sends(d0, d1, fails, a, false)
    ensures Sends(d0, d1, fails, a + b, false)
  {
    IssuedSplit(fails, |d0|, a, b);
  }

  // ----- The driver's loader -----

  method SetCpuReset(dev: Device, hold: bool) returns (ok: bool)
    modifies dev
    ensures Sends(old(dev.trace), dev.trace, dev.fails, [if hold then HOLD else RELEASE], ok)
    ensures dev.trace == old(dev.trace) + [if hold then HOLD else RELEASE]
  {
    ok := dev.VendorWrite(if hold then HOLD else RELEASE);
  }

  method DownloadChunked(dev: Device, code: byte, base: nat, data: seq<byte>) returns (ok: bool)
    modifies dev
    ensures Sends(old(dev.trace), dev.trace, dev.fails, ChunkedRequests(code, base, data), ok)
  {
    ghost var d0, reqs, k := dev.trace, ChunkedRequests(code, base, data), 0;
    var offset := 0;
    while offset < |data|
      invariant offset == Min(k * CHUNK, |data|) && Sent(d0, dev.trace, dev.fails, reqs, k)
      invariant offset == |data| ==> k == |reqs|
      decreases |data| - offset
    {
      var chunk := |data| - offset;
      if chunk > CHUNK {
        chunk := CHUNK;
      }
      ghost var d1 := dev.trace;
      ok := dev.VendorWrite(Request(code, (base + offset) % ADDRESS_SPACE, 0, data[offset..offset + chunk]));
      assert dev.trace == d1 + [reqs[k]];
      if !ok {
        SentFailure(d0, d1, dev.fails, reqs, k);
        return;
      }
      SentOne(d0, d1, dev.fails, reqs, k);
      offset, k := offset + chunk, k + 1;
    }
    SentAll(d0, dev.trace, dev.fails, reqs);
    ok := true;
  }

  method DownloadBitstream(dev: Device, data: seq<byte>) returns (ok: bool)
    modifies dev
    ensures Sends(old(dev.trace), dev.trace, dev.fails, BitstreamRequests(data), ok)
  {
    ghost var d0, reqs, k := dev.trace, BitstreamRequests(data), 0;
    ok := dev.VendorWrite(BEGIN);
    if !ok {
      SentFailure(d0, d0, dev.fails, reqs, 0);
      return;
    }
    SentOne(d0, d0, dev.fails, reqs, 0);
    var offset := 0;
    while offset < |data|
      invariant offset == Min(k * CHUNK, |data|) && Sent(d0, dev.trace, dev.fails, reqs, k + 1)
      invariant offset == |data| ==> k + 1 == |reqs|
      decreases |data| - offset
    {
      var chunk := |data| - offset;
      var last := false;
      if chunk > CHUNK {
        chunk := CHUNK;
      } else {
        last := true;
      }
      ghost var d1 := dev.trace;
      BitstreamRequest(data, k, offset, offset + chunk);
      ok := dev.VendorWrite(Request(REQ_FPGA, 1, if last then 1 else 0, data[offset..offset + chunk]));
      assert dev.trace == d1 + [reqs[k + 1]];
      if !ok {
        SentFailure(d0, d1, dev.fails, reqs, k + 1);
        return;
      }
      SentOne(d0, d1, dev.fails, reqs, k + 1);
      offset, k := offset + chunk, k + 1;
    }
    SentAll(d0, dev.trace, dev.fails, reqs);
    ok := true;
  }

  // ----- Its user-space twin -----

  method PyDownloadChunked(dev: Device, code: byte, base: nat, data: seq<byte>) returns (ok: bool)
    modifies dev
    ensures Sends(old(dev.trace), dev.trace, dev.fails, ChunkedRequests(code, base, data), ok)
  {
    ghost var d0, reqs, k := dev.trace, ChunkedRequests(code, base, data), 0;
    var offset := 0;
    while offset < |data|
      invariant offset == Min(k * CHUNK, |data|) && Sent(d0, dev.trace, dev.fails, reqs, k)
      invariant offset == |data| ==> k == |reqs|
      decreases |data| - offset
    {
      var chunk := data[offset..Min(offset + CHUNK, |data|)];
      ghost var d1 := dev.trace;
      ok := dev.VendorWrite(Request(code, (base + offset) % ADDRESS_SPACE, 0, chunk));
      assert dev.trace == d1 + [reqs[k]];
      if !ok {
        SentFailure(d0, d1, dev.fails, reqs, k);
        return;
      }
      SentOne(d0, d1, dev.fails, reqs, k);
      offset, k := offset + |chunk|, k + 1;
    }
    SentAll(d0, dev.trace, dev.fails, reqs);
    ok := true;
  }

  method PyDownloadBitstream(dev: Device, data: seq<byte>) returns (ok: bool)
    modifies dev
    ensures Sends(old(dev.trace), dev.trace, dev.fails, BitstreamRequests(data), ok)
  {
    ghost var d0, reqs, k := dev.trace, BitstreamRequests(data), 0;
    ok := dev.VendorWrite(BEGIN);
    if !ok {
      SentFailure(d0, d0, dev.fails, reqs, 0);
      return;
    }
    SentOne(d0, d0, dev.fails, reqs, 0);
    var offset := 0;
    while offset < |data|
      invariant offset == Min(k * CHUNK, |data|) && Sent(d0, dev.trace, dev.fails, reqs, k + 1)
      invariant offset == |data| ==> k + 1 == |reqs|
      decreases |data| - offset
    {
      ghost var d1, end := dev.trace, Min(offset + CHUNK, |data|);
      BitstreamRequest(data, k, offset, end);
      var chunk := data[offset..Min(offset + CHUNK, |data|)];
      var last := offset + |chunk| >= |data|;
      assert offset + |chunk| == end;
      ok := dev.VendorWrite(Request(REQ_FPGA, 1, if last then 1 else 0, chunk));
      assert dev.trace == d1 + [reqs[k + 1]];
      if !ok {
        SentFailure(d0, d1, dev.fails, reqs, k + 1);
        return;
      }
      SentOne(d0, d1, dev.fails, reqs, k + 1);
      offset, k := offset + |chunk|, k + 1;
    }
    SentAll(d0, dev.trace, dev.fails, reqs);
    ok := true;
  }

  // ----- The whole download -----

  function UpToHold(im: Images): seq<Request> {
    BitstreamRequests(im.fpga) + ChunkedRequests(REQ_EXTRAM, EXTRAM_BASE, im.extRam) + [HOLD]
  }

  function MainRequests(im: Images): seq<Request> {
    ChunkedRequests(REQ_RAM, 0, im.main)
  }

  function AllRequests(im: Images): seq<Request> {
    UpToHold(im) + MainRequests(im) + [RELEASE]
  }

  // ----- What a whole download carries -----

  /** The bitstream requests: an opening one without data, and then the data, of which exactly the
      last piece is marked. */
  ghost predicate CarriesBitstream(t: seq<Request>, data: seq<byte>) {
    && t != [] && t[0] == Request(0xA4, 0, 0, [])
    && (forall i :: 1 <= i < |t| ==> t[i].code == 0xA4 && t[i].wValue == 1 && 1 <= |t[i].data| <= 0x1000)
    && (forall i :: 1 <= i < |t| ==> t[i].wIndex == if i == |t| - 1 then 1 else 0)
    && DataOf(t) == data
  }

  /** Memory writes with this code in pieces that follow each other from `base` on. */
  ghost predicate InPieces(t: seq<Request>, code: byte, base: nat) {
    forall i :: 0 <= i < |t| ==>
      && t[i].code == code && t[i].wIndex == 0 && 1 <= |t[i].data| <= 0x1000
      && t[i].wValue == (base + 0x1000 * i) % 0x1_0000
  }

  /** After these writes the image is in memory at `base` and nothing else has changed. */
  ghost predicate Lands(t: seq<Request>, base: nat, data: seq<byte>) {
    forall before: nat -> byte, addr: nat :: addr < 0x1_0000 ==>
      MemoryAfter(t, before, addr) == if base <= addr < base + |data| then data[addr - base] else before(addr)
  }

  /** The image whole and in order, and in memory if it fits below the end of the address space. */
  ghost predicate CarriesImage(t: seq<Request>, code: byte, base: nat, data: seq<byte>) {
    InPieces(t, code, base) && DataOf(t) == data && (base + |data| <= 0x1_0000 ==> Lands(t, base, data))
  }

  /** A complete download: the bitstream in the first `i` requests, the external RAM up to request
      `j`, which holds the CPU, then the main firmware from address 0, and the release last. */
  ghost predicate Complete(t: seq<Request>, i: nat, j: nat, im: Images) {
    && i <= j < |t| - 1
    && CarriesBitstream(t[..i], im.fpga)
    && CarriesImage(t[i..j], 0xA3, 0x4000, im.extRam)
    && t[j] == Request(0xA0, 0xE600, 0, [1])
    && CarriesImage(t[j + 1..|t| - 1], 0xA0, 0, im.main)
    && t[|t| - 1] == Request(0xA0, 0xE600, 0, [0])
  }

  /** What was issued is a complete download if it worked. If it did not, it is one up to some
      request, and if `released` the release after it. */
  ghost predicate Downloads(t: seq<Request>, im: Images, ok: bool, released: bool) {
    exists full, i, j ::
      && Complete(full, i, j, im)
      && if ok then t == full && !released
         else if released then t != [] && t[..|t| - 1] <= full && t[|t| - 1] == Request(0xA0, 0xE600, 0, [0])
         else t <= full
  }

  lemma ImageLands(code: byte, base: nat, data: seq<byte>)
    requires base + |data| <= ADDRESS_SPACE
    ensures Lands(ChunkedRequests(code, base, data), base, data)
  {
    forall before: nat -> byte, addr: nat | addr < ADDRESS_SPACE
      ensures MemoryAfter(ChunkedRequests(code, base, data), before, addr) ==
                if base <= addr < base + |data| then data[addr - base] else before(addr)
    {
      ImageInMemory(code, base, data, before, addr);
    }
  }

  lemma ImageInPieces(code: byte, base: nat, data: seq<byte>)
    ensures InPieces(ChunkedRequests(code, base, data), code, base)
  {
    ChunksCarryAll(data, ChunkedRequests(code, base, data), 0);
  }

  lemma ImageCarried(code: byte, base: nat, data: seq<byte>)
    ensures CarriesImage(ChunkedRequests(code, base, data), code, base, data)
  {
    ImageInPieces(code, base, data);
    DownloadsCarryAll(code, base, data);
    if base + |data| <= ADDRESS_SPACE {
      ImageLands(code, base, data);
    }
  }

  lemma BitstreamCarried(data: seq<byte>)
    ensures CarriesBitstream(BitstreamRequests(data), data)
  {
    var b := BitstreamRequests(data);
    DownloadsCarryAll(0, 0, data);
    forall i | 1 <= i < |b|
      ensures b[i].code == 0xA4 && b[i].wValue == 1 && 1 <= |b[i].data| <= 0x1000
      ensures b[i].wIndex == if i == |b| - 1 then 1 else 0
    {
      BitstreamPiece(data, i - 1);
    }
    DataOfRest(b);
  }

  lemma BitstreamPiece(data: seq<byte>, k: nat)
    requires k < Chunks(|data|)
    ensures BitstreamRequests(data)[k + 1] ==
              Request(0xA4, 1, if k == Chunks(|data|) - 1 then 1 else 0, Chunk(data, k))
    ensures 1 <= |Chunk(data, k)| <= 0x1000
  {
  }

  lemma {:induction false} DataOfRest(t: seq<Request>)
    requires t != [] && t[0].data == []
    ensures DataOf(t) == DataOf(t[1..])
  {
    if |t| == 1 {
      assert DataOf(t) == DataOf([]) + [];
    } else {
      DataOfRest(t[..|t| - 1]);
      assert t[..|t| - 1][1..] == t[1..][..|t| - 2];
    }
  }

  lemma PartsComplete(b: seq<Request>, e: seq<Request>, main: seq<Request>, im: Images)
    returns (t: seq<Request>, i: nat, j: nat)
    requires CarriesBitstream(b, im.fpga) && CarriesImage(e, 0xA3, 0x4000, im.extRam)
    requires CarriesImage(main, 0xA0, 0, im.main)
    ensures t == b + e + [HOLD] + main + [RELEASE] && Complete(t, i, j, im)
  {
    t, i, j := b + e + [HOLD] + main + [RELEASE], |b|, |b| + |e|;
    assert t[..|b|] == b && t[|b|..|b| + |e|] == e && t[|b| + |e| + 1..|t| - 1] == main;
  }

  lemma AllParts(im: Images) returns (b: seq<Request>, e: seq<Request>, main: seq<Request>)
    ensures CarriesBitstream(b, im.fpga) && CarriesImage(e, 0xA3, 0x4000, im.extRam)
    ensures CarriesImage(main, 0xA0, 0, im.main)
    ensures AllRequests(im) == b + e + [HOLD] + main + [RELEASE]
  {
    b, e, main := BitstreamRequests(im.fpga), ChunkedRequests(REQ_EXTRAM, EXTRAM_BASE, im.extRam), MainRequests(im);
    BitstreamCarried(im.fpga);
    ImageCarried(REQ_EXTRAM, EXTRAM_BASE, im.extRam);
    ImageCarried(REQ_RAM, 0, im.main);
  }

  /** What is sent when nothing fails is a complete download. */
  lemma AllComplete(im: Images) returns (full: seq<Request>, i: nat, j: nat)
    ensures full == AllRequests(im) && Complete(full, i, j, im)
  {
    var b, e, main := AllParts(im);
    full, i, j := PartsComplete(b, e, main, im);
  }

  lemma {:induction false} IssuedPrefix(fails: nat -> bool, from: nat, reqs: seq<Request>)
    ensures Issued(fails, from, reqs) <= reqs
    ensures AllOk(fails, from, |reqs|) ==> Issued(fails, from, reqs) == reqs
    decreases |reqs|
  {
    if reqs != [] {
      IssuedPrefix(fails, from + 1, reqs[1..]);
      assert reqs == [reqs[0]] + reqs[1..];
    }
  }

  /** The hold took, and then a chunk of the main firmware failed. */
  predicate FailsInMain(fails: nat -> bool, from: nat, im: Images) {
    && AllOk(fails, from, |UpToHold(im)|)
    && !AllOk(fails, from + |UpToHold(im)|, |MainRequests(im)|)
  }

  lemma Downloaded(fails: nat -> bool, d0: seq<Request>, d1: seq<Request>, im: Images, ok: bool, released: bool)
    requires d1 == d0 + Issued(fails, |d0|, AllRequests(im)) + (if released then [RELEASE] else [])
    requires ok ==> AllOk(fails, |d0|, |AllRequests(im)|) && !released
    ensures Downloads(d1[|d0|..], im, ok, released)
  {
    var all, tail := AllRequests(im), if released then [RELEASE] else [];
    IssuedPrefix(fails, |d0|, all);
    SinceThen(d0, Issued(fails, |d0|, all), tail);
    DownloadsOf(all, Issued(fails, |d0|, all), d1[|d0|..], im, ok, released);
  }

  lemma SinceThen(d0: seq<Request>, issued: seq<Request>, tail: seq<Request>)
    ensures (d0 + issued + tail)[|d0|..] == issued + tail
  {
  }

  lemma DownloadsOf(all: seq<Request>, issued: seq<Request>, t: seq<Request>, im: Images, ok: bool, released: bool)
    requires all == AllRequests(im) && issued <= all && (ok ==> issued == all && !released)
    requires t == issued + if released then [RELEASE] else []
    ensures Downloads(t, im, ok, released)
  {
    var full, i, j := AllComplete(im);
    if released {
      assert t[..|t| - 1] == issued;
    } else {
      assert t == issued;
    }
  }

  /** Once the CPU is held, the last request of the driver's download is its release, on
      every path; up to there the requests are exactly the twin's. */
  method DownloadFirmware(dev: Device, bcdDevice: nat, im: Images) returns (ok: bool)
    modifies dev
    ensures bcdDevice < LEGACY_BCD_DEVICE ==> !ok && dev.trace == old(dev.trace)
    ensures bcdDevice >= LEGACY_BCD_DEVICE ==>
      && ok == AllOk(dev.fails, |old(dev.trace)|, |AllRequests(im)|)
      && dev.trace == old(dev.trace) + Issued(dev.fails, |old(dev.trace)|, AllRequests(im))
                      + (if FailsInMain(dev.fails, |old(dev.trace)|, im) then [RELEASE] else [])
      && (AllOk(dev.fails, |old(dev.trace)|, |UpToHold(im)|) ==> EndsInRelease(dev.trace))
      && Downloads(dev.trace[|old(dev.trace)|..], im, ok, FailsInMain(dev.fails, |old(dev.trace)|, im))
  {
    if bcdDevice < LEGACY_BCD_DEVICE {
      return false;
    }
    ghost var d0, fails := dev.trace, dev.fails;
    ok := PrepareCpu(dev, im);
    ghost var d1 := dev.trace;
    if !ok {
      SendsFailed(d0, d1, fails, UpToHold(im), MainRequests(im) + [RELEASE]);
      assert AllRequests(im) == UpToHold(im) + (MainRequests(im) + [RELEASE]);
      assert d1 + [] == d1;
      Downloaded(fails, d0, dev.trace, im, ok, FailsInMain(fails, |d0|, im));
      return;
    }
    ok := DownloadChunked(dev, REQ_RAM, 0, im.main);
    ghost var d2 := dev.trace;
    SendsBoth(d0, d1, d2, fails, UpToHold(im), MainRequests(im), ok);
    Length(d0, d1, fails, UpToHold(im));
    if !ok {
      SendsFailed(d0, d2, fails, UpToHold(im) + MainRequests(im), [RELEASE]);
      var _ := SetCpuReset(dev, false);
      assert dev.trace == d2 + [RELEASE];
      Downloaded(fails, d0, dev.trace, im, ok, FailsInMain(fails, |d0|, im));
      return;
    }
    ok := SetCpuReset(dev, false);
    SendsBoth(d0, d2, dev.trace, fails, UpToHold(im) + MainRequests(im), [RELEASE], ok);
    assert dev.trace == d2 + [RELEASE] && dev.trace + [] == dev.trace;
    Downloaded(fails, d0, dev.trace, im, ok, FailsInMain(fails, |d0|, im));
  }

  predicate EndsInRelease(trace: seq<Request>) {
    trace != [] && trace[|trace| - 1] == RELEASE
  }

  method PrepareCpu(dev: Device, im: Images) returns (ok: bool)
    modifies dev
    ensures Sends(old(dev.trace), dev.trace, dev.fails, UpToHold(im), ok)
  {
    ghost var d0, fails := dev.trace, dev.fails;
    ghost var b, e := BitstreamRequests(im.fpga), ChunkedRequests(REQ_EXTRAM, EXTRAM_BASE, im.extRam);
    ok := DownloadBitstream(dev, im.fpga);
    if !ok {
      SendsFailed(d0, dev.trace, fails, b, e + [HOLD]);
      assert UpToHold(im) == b + (e + [HOLD]);
      return;
    }
    ghost var d1 := dev.trace;
    ok := DownloadChunked(dev, REQ_EXTRAM, EXTRAM_BASE, im.extRam);
    ghost var d2 := dev.trace;
    SendsBoth(d0, d1, d2, fails, b, e, ok);
    if !ok {
      SendsFailed(d0, d2, fails, b + e, [HOLD]);
      return;
    }
    ok := SetCpuReset(dev, true);
    SendsBoth(d0, d2, dev.trace, fails, b + e, [HOLD], ok);
  }

  method PyDownload(dev: Device, bcdDevice: nat, im: Images) returns (ok: bool)
    modifies dev
    ensures bcdDevice < LEGACY_BCD_DEVICE ==> !ok && dev.trace == old(dev.trace)
    ensures bcdDevice >= LEGACY_BCD_DEVICE ==>
      && Sends(old(dev.trace), dev.trace, dev.fails, AllRequests(im), ok)
      && Downloads(dev.trace[|old(dev.trace)|..], im, ok, false)
  {
    if bcdDevice < LEGACY_BCD_DEVICE {
      return false;
    }
    ghost var d0, fails := dev.trace, dev.fails;
    ok := PyPrepareCpu(dev, im);
    ghost var d1 := dev.trace;
    if !ok {
      SendsFailed(d0, d1, fails, UpToHold(im), MainRequests(im) + [RELEASE]);
      assert AllRequests(im) == UpToHold(im) + (MainRequests(im) + [RELEASE]);
      Downloaded(fails, d0, dev.trace, im, ok, false);
      return;
    }
    ok := PyDownloadChunked(dev, REQ_RAM, 0, im.main);
    ghost var d2 := dev.trace;
    SendsBoth(d0, d1, d2, fails, UpToHold(im), MainRequests(im), ok);
    if !ok {
      SendsFailed(d0, d2, fails, UpToHold(im) + MainRequests(im), [RELEASE]);
      Downloaded(fails, d0, dev.trace, im, ok, false);
      return;
    }
    ok := dev.VendorWrite(RELEASE);
    SendsBoth(d0, d2, dev.trace, fails, UpToHold(im) + MainRequests(im), [RELEASE], ok);
    Downloaded(fails, d0, dev.trace, im, ok, false);
  }

  method PyPrepareCpu(dev: Device, im: Images) returns (ok: bool)
    modifies dev
    ensures Sends(old(dev.trace), dev.trace, dev.fails, UpToHold(im), ok)
  {
    ghost var d0, fails := dev.trace, dev.fails;
    ghost var b, e := BitstreamRequests(im.fpga), ChunkedRequests(REQ_EXTRAM, EXTRAM_BASE, im.extRam);
    ok := PyDownloadBitstream(dev, im.fpga);
    ghost var d1 := dev.trace;
    if !ok {
      SendsFailed(d0, d1, fails, b, e + [HOLD]);
      assert UpToHold(im) == b + (e + [HOLD]);
      return;
    }
    ok := PyDownloadChunked(dev, REQ_EXTRAM, EXTRAM_BASE, im.extRam);
    ghost var d2 := dev.trace;
    SendsBoth(d0, d1, d2, fails, b, e, ok);
    if !ok {
      SendsFailed(d0, d2, fails, b + e, [HOLD]);
      return;
    }
    ok := dev.VendorWrite(HOLD);
    SendsBoth(d0, d2, dev.trace, fails, b + e, [HOLD], ok);
  }

  predicate SetsCpuReset(r: Request) {
    r.code == REQ_RAM && r.wValue == CPUCS_ADDR
  }

  /** The last CPU-reset request of a series, if there is one. */
  function LastCpuReset(reqs: seq<Request>): Option<Request> {
    if reqs == [] then None
    else if SetsCpuReset(reqs[|reqs| - 1]) then Some(reqs[|reqs| - 1])
    else LastCpuReset(reqs[..|reqs| - 1])
  }

  lemma {:induction false} LastResetBefore(a: seq<Request>, b: seq<Request>)
    requires forall r :: r in b ==> !SetsCpuReset(r)
    ensures LastCpuReset(a + b) == LastCpuReset(a)
    decreases |b|
  {
    if b == [] {
      assert a + b == a;
    } else {
      assert b[|b| - 1] in b;
      assert (a + b)[..|a + b| - 1] == a + b[..|b| - 1];
      LastResetBefore(a, b[..|b| - 1]);
    }
  }

  lemma {:induction false} IssuedAreMembers(fails: nat -> bool, from: nat, reqs: seq<Request>)
    ensures forall r :: r in Issued(fails, from, reqs) ==> r in reqs
    decreases |reqs|
  {
    if reqs != [] {
      IssuedAreMembers(fails, from + 1, reqs[1..]);
    }
  }

  lemma MainNeverResets(im: Images)
    ensures forall r :: r in MainRequests(im) ==> !SetsCpuReset(r)
  {
    var main := MainRequests(im);
    forall k | 0 <= k < |main|
      ensures !SetsCpuReset(main[k])
    {
      assert main[k].wValue == (k * CHUNK) % ADDRESS_SPACE;
      ChunkAddress(k);
    }
  }

  /** The CPU's control register is not at the start of any chunk. */
  lemma ChunkAddress(k: nat)
    ensures (k * CHUNK) % ADDRESS_SPACE != CPUCS_ADDR
  {
    var a := k * CHUNK;
    var m := k - 0x10 * (a / ADDRESS_SPACE);
    assert a % ADDRESS_SPACE == CHUNK * m;
  }

  lemma HoldIsLast(im: Images)
    ensures LastCpuReset(UpToHold(im)) == Some(HOLD)
  {
    var pre := UpToHold(im);
    assert pre[|pre| - 1] == HOLD;
  }

  lemma IssuedLast(fails: nat -> bool, from: nat)
    ensures Issued(fails, from, [RELEASE]) == [RELEASE]
  {
    assert [RELEASE][1..] == [];
  }

  /** After a hold that took, what the twin issues is its preparation and then: the main
      firmware up to its failure, or all of it and the release. */
  lemma IssuedAfterHold(fails: nat -> bool, from: nat, im: Images)
    requires AllOk(fails, from, |UpToHold(im)|)
    ensures var pre, main := UpToHold(im), MainRequests(im);
            Issued(fails, from, AllRequests(im)) ==
              if FailsInMain(fails, from, im) then pre + Issued(fails, from + |pre|, main) else pre + main + [RELEASE]
  {
    var pre, main := UpToHold(im), MainRequests(im);
    var at := from + |pre|;
    Associative(pre, main, [RELEASE]);
    IssuedSplit(fails, from, pre, main + [RELEASE]);
    IssuedSplit(fails, at, main, [RELEASE]);
    IssuedLast(fails, at + |main|);
  }

  lemma HeldAfter(fails: nat -> bool, at: nat, im: Images, issued: seq<Request>)
    requires issued == UpToHold(im) + Issued(fails, at, MainRequests(im))
    ensures LastCpuReset(issued) == Some(HOLD)
  {
    MainNeverResets(im);
    IssuedAreMembers(fails, at, MainRequests(im));
    LastResetBefore(UpToHold(im), Issued(fails, at, MainRequests(im)));
    HoldIsLast(im);
  }

  /** The twin, once it has held the CPU, leaves it held exactly if the main firmware fails. */
  lemma TwinLeavesCpuHeld(fails: nat -> bool, from: nat, im: Images)
    requires AllOk(fails, from, |UpToHold(im)|)
    ensures LastCpuReset(Issued(fails, from, AllRequests(im))) ==
              Some(if FailsInMain(fails, from, im) then HOLD else RELEASE)
  {
    IssuedAfterHold(fails, from, im);
    if FailsInMain(fails, from, im) {
      HeldAfter(fails, from + |UpToHold(im)|, im, Issued(fails, from, AllRequests(im)));
    } else {
      LastIs(UpToHold(im) + MainRequests(im), [RELEASE]);
    }
  }

  lemma LastIs(a: seq<Request>, b: seq<Request>)
    requires b == [RELEASE]
    ensures LastCpuReset(a + b) == Some(RELEASE)
  {
    assert (a + b)[|a + b| - 1] == RELEASE;
  }
}
