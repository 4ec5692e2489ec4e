/** The NI USB-HS packet formats: write requests, status blocks and read responses. */
module NiWire {
  import opened Bytes

  const OPC_WRITE: byte := 0x0D
  const TERM_ID: byte := 0x04
  const IBRD_DATA_ID: byte := 0x36
  const IBRD_EXTENDED_DATA_ID: byte := 0x37
  const IBRD_STATUS_ID: byte := 0x38
  const BULK_BUFFER := 0x1000
  const MAX_PAYLOAD := 4080
  const EOI_FLAG: byte := 0x08
  const END_BIT := 0x2000

  function TimeoutCode(us: u32): byte {
    if us == 0xFFFF_FFFF || us == 0 then 0xF0
    else if us <= 10 then 0xF1 else if us <= 30 then 0xF2 else if us <= 100 then 0xF3 else if us <= 300 then 0xF4
    else if us <= 1000 then 0xF5 else if us <= 3000 then 0xF6
    else if us <= 10_000 then 0xF7 else if us <= 30_000 then 0xF8
    else if us <= 100_000 then 0xF9 else if us <= 300_000 then 0xFA else if us <= 1_000_000 then 0xFB
    else if us <= 3_000_000 then 0xFC else if us <= 10_000_000 then 0xFD else if us <= 30_000_000 then 0xFE
    else if us <= 100_000_000 then 0xFF else if us <= 300_000_000 then 0x01 else 0x02
  }

  function MapNiError(code: byte): Rc {
    if code == 0 then Ok else if code == 1 then Aborted else if code == 10 then TimedOut
    else if code == 8 || code == 5 then NoListener else IoError
  }

  /** The microseconds that a timeout code stands for; zero for the code of no timeout and for
      bytes that are no code. */
  function Micros(code: byte): nat {
    match code
    case 0xF1 => 10 case 0xF2 => 30 case 0xF3 => 100 case 0xF4 => 300
    case 0xF5 => 1000 case 0xF6 => 3000 case 0xF7 => 10_000 case 0xF8 => 30_000
    case 0xF9 => 100_000 case 0xFA => 300_000 case 0xFB => 1_000_000 case 0xFC => 3_000_000
    case 0xFD => 10_000_000 case 0xFE => 30_000_000 case 0xFF => 100_000_000 case 0x01 => 300_000_000
    case 0x02 => 1_000_000_000
    case _ => 0
  }

  /** The code chosen is that of the shortest timeout that is not shorter than the one asked
      for; above 1000 s, for which there is none, that of the longest; and no timeout exactly
      if none is asked for. */
  lemma TimeoutCovers(us: u32)
    ensures TimeoutCode(us) == 0xF0 <==> us == 0 || us == 0xFFFF_FFFF
    ensures var t := Micros(TimeoutCode(us));
            0 < us < 0xFFFF_FFFF ==>
              if us <= 1_000_000_000 then us <= t && forall c: byte :: us <= Micros(c) ==> t <= Micros(c)
              else t == 1_000_000_000
  {
  }

  // ----- Write requests -----

  function Zeros(n: nat): seq<byte> {
    seq(n, _ => 0)
  }

  function PaddingTo4(n: nat): nat {
    (4 - n % 4) % 4
  }

  const TRAILER: seq<byte> := [TERM_ID, 0, 0, 0]

  function WriteHeader(len: nat, eoi: bool, us: u32): seq<byte>
    requires 1 <= len <= MAX_PAYLOAD
  {
    [OPC_WRITE, Low(0x1_0000 - len, 1), Low(0x1_0000 - len, 0x100), TimeoutCode(us),
     0, 0, if eoi then EOI_FLAG else 0, 0]
  }

  function WritePacket(payload: seq<byte>, eoi: bool, us: u32): seq<byte>
    requires 1 <= |payload| <= MAX_PAYLOAD
  {
    WriteHeader(|payload|, eoi, us) + payload + Zeros(PaddingTo4(|payload|)) + TRAILER
  }

  /** How an adapter reads a write request: the length from the complement field, then the
      payload, the EOI flag, padding to a multiple of four, and the termination trailer. */
  function ParseWrite(pkt: seq<byte>): Option<(seq<byte>, bool)> {
    if |pkt| < 16 || |pkt| % 4 != 0 || pkt[0] != OPC_WRITE then None
    else
      var len := 0x1_0000 - (pkt[1] as int + pkt[2] as int * 0x100);
      if 8 + len + PaddingTo4(len) + 4 != |pkt| || pkt[|pkt| - 4..] != TRAILER then None
      else Some((pkt[8..8 + len], pkt[6] == EOI_FLAG))
  }

  lemma WriteRoundTrip(payload: seq<byte>, eoi: bool, us: u32)
    requires 1 <= |payload| <= MAX_PAYLOAD
    ensures var pkt := WritePacket(payload, eoi, us);
            && |pkt| % 4 == 0 && |pkt| <= BULK_BUFFER
            && ParseWrite(pkt) == Some((payload, eoi))
            && pkt[3] == TimeoutCode(us) && pkt[4] == pkt[5] == pkt[7] == 0 && pkt[6] == (if eoi then 8 else 0)
            && forall i :: 8 + |payload| <= i < |pkt| - 4 ==> pkt[i] == 0
  {
    var pkt := WritePacket(payload, eoi, us);
    var n := 0x1_0000 - |payload|;
    assert n == n % 0x100 + n / 0x100 * 0x100 && n / 0x100 < 0x100;
    assert pkt[8..8 + |payload|] == payload;
    assert pkt[|pkt| - 4..] == TRAILER;
  }

  /** The packet is built by index into a fixed buffer; the payload is capped to what fits. */
  method FrameWrite(buf: seq<byte>, eoi: bool, us: u32) returns (pkt: array<byte>, n: nat)
    requires buf != []
    ensures fresh(pkt) && pkt.Length == BULK_BUFFER && n <= BULK_BUFFER
    ensures pkt[..n] == WritePacket(buf[..Min(|buf|, MAX_PAYLOAD)], eoi, us)
  {
    var len := Min(|buf|, MAX_PAYLOAD);
    pkt := new byte[BULK_BUFFER];
    PutHeader(pkt, len, eoi, us);
    n := PutPayload(pkt, 8, buf[..len]);
    n := PadToBoundary(pkt, n);
    assert n == 8 + len + PaddingTo4(len);
    n := AppendTermination(pkt, n);
  }

  method PutHeader(pkt: array<byte>, len: nat, eoi: bool, us: u32)
    requires 1 <= len <= MAX_PAYLOAD && pkt.Length >= 8
    modifies pkt
    ensures pkt[..8] == WriteHeader(len, eoi, us)
  {
    var complement := 0x1_0000 - len;
    pkt[0], pkt[1], pkt[2], pkt[3] := OPC_WRITE, Low(complement, 1), Low(complement, 0x100), TimeoutCode(us);
    pkt[4], pkt[5], pkt[6], pkt[7] := 0, 0, if eoi then EOI_FLAG else 0, 0;
    assert pkt[..8] == [pkt[0], pkt[1], pkt[2], pkt[3], pkt[4], pkt[5], pkt[6], pkt[7]];
  }

  method PutPayload(pkt: array<byte>, at: nat, payload: seq<byte>) returns (n: nat)
    requires at + |payload| <= pkt.Length
    modifies pkt
    ensures n == at + |payload| && pkt[..n] == old(pkt[..at]) + payload
  {
    forall k | 0 <= k < |payload| {
      pkt[at + k] := payload[k];
    }
    n := at + |payload|;
  }

  method PadToBoundary(pkt: array<byte>, from: nat) returns (n: nat)
    requires from + 4 <= pkt.Length
    modifies pkt
    ensures n == from + PaddingTo4(from)
    ensures pkt[..n] == old(pkt[..from]) + Zeros(n - from)
  {
    n := from;
    while n % 4 != 0
      invariant from <= n <= from + PaddingTo4(from)
      invariant pkt[..n] == old(pkt[..from]) + Zeros(n - from)
      decreases from + PaddingTo4(from) - n
    {
      pkt[n] := 0;
      assert pkt[..n + 1] == pkt[..n] + [0];
      assert Zeros(n - from) + [0] == Zeros(n + 1 - from);
      n := n + 1;
    }
  }

  method AppendTermination(pkt: array<byte>, from: nat) returns (n: nat)
    requires from + 4 <= pkt.Length
    modifies pkt
    ensures n == from + 4 && pkt[..n] == old(pkt[..from]) + TRAILER
  {
    pkt[from], pkt[from + 1], pkt[from + 2], pkt[from + 3] := TERM_ID, 0, 0, 0;
    n := from + 4;
    assert pkt[..n] == pkt[..from] + TRAILER;
  }

  // ----- Status blocks -----

  datatype Status = Status(id: byte, ibsta: nat, error: byte, count: nat)

  function ParseStatus(b: seq<byte>): Status
    requires |b| >= 8
  {
    var raw := b[4] as int + b[5] as int * 0x100;
    Status(b[0], b[1] as int * 0x100 + b[2] as int, b[3], (0xFFFF - raw + 1) % 0x1_0000)
  }

  /** A status block for `remaining` bytes not transferred, in two's complement. */
  function StatusBytes(id: byte, ibsta: nat, error: byte, remaining: nat): seq<byte>
    requires ibsta < 0x1_0000 && remaining < 0x1_0000
  {
    var raw := (0x1_0000 - remaining) % 0x1_0000;
    [id, ibsta / 0x100, ibsta % 0x100, error, Low(raw, 1), Low(raw, 0x100), 0, 0]
  }

  function Written(len: nat, st: Status): nat {
    if st.count <= len then len - st.count else 0
  }

  lemma StatusRoundTrip(id: byte, ibsta: nat, error: byte, remaining: nat, len: nat)
    requires ibsta < 0x1_0000 && remaining < 0x1_0000
    ensures ParseStatus(StatusBytes(id, ibsta, error, remaining)) == Status(id, ibsta, error, remaining)
    ensures Written(len, ParseStatus(StatusBytes(id, ibsta, error, remaining))) ==
              if remaining <= len then len - remaining else 0
  {
    var raw := (0x1_0000 - remaining) % 0x1_0000;
    assert raw == raw % 0x100 + raw / 0x100 * 0x100 && raw / 0x100 < 0x100;
    assert ibsta == ibsta / 0x100 * 0x100 + ibsta % 0x100;
  }

  // ----- Read responses -----

  datatype Block = Short(payload: seq<byte>) | Long(reserved: byte, payload: seq<byte>)
  {
    function Size(): nat {
      if Short? then 15 else 30
    }

    predicate Valid() {
      |payload| == Size()
    }

    function Encode(): seq<byte> {
      if Short? then [IBRD_DATA_ID] + payload else [IBRD_EXTENDED_DATA_ID, reserved] + payload
    }
  }

  function EncodeAll(bs: seq<Block>): seq<byte> {
    if bs == [] then [] else bs[0].Encode() + EncodeAll(bs[1..])
  }

  function Payloads(bs: seq<Block>): seq<byte> {
    if bs == [] then [] else bs[0].payload + Payloads(bs[1..])
  }

  /** The walk over the data blocks: payload so far, where it stopped, size of the last block. */
  datatype Walked = Walked(payload: seq<byte>, at: nat, block: nat)

  predicate IsData(r: seq<byte>, p: nat) {
    p < |r| && (r[p] == IBRD_DATA_ID || r[p] == IBRD_EXTENDED_DATA_ID)
  }

  function NextBlock(r: seq<byte>, w: Walked): (n: Walked)
    requires IsData(r, w.at)
    ensures n.at > w.at
  {
    var size := if r[w.at] == IBRD_DATA_ID then 15 else 30;
    var start := if r[w.at] == IBRD_DATA_ID then w.at + 1 else w.at + 2;
    if start > |r| then Walked(w.payload, start, size)
    else Walked(w.payload + r[start..Min(start + size, |r|)], Min(start + size, |r|), size)
  }

  function Walk(r: seq<byte>, w: Walked): Walked
    decreases if w.at <= |r| then |r| - w.at else 0
  {
    if IsData(r, w.at) then Walk(r, NextBlock(r, w)) else w
  }

  /** The overshoot trim, on what was copied rather than on what was sent. */
  function Trim(copied: nat, block: nat, tail: nat): nat
    requires block > 0
  {
    var complete := copied / block;
    Min(if complete != 0 then (complete - 1) * block + tail else tail, copied)
  }

  datatype ReadResult = ReadResult(rc: Rc, count: nat, end: bool)

  function Interpret(r: seq<byte>, w: Walked, requestCount: nat): ReadResult {
    var copied := Min(|w.payload|, requestCount);
    if w.at + 8 > |r| then ReadResult(IoError, copied, false)
    else
      var st := ParseStatus(r[w.at..]);
      if st.id != IBRD_STATUS_ID then ReadResult(IoError, copied, false)
      else
        var trims := w.block != 0 && w.at + 8 < |r| && copied > 0;
        var count := if trims then Trim(copied, w.block, r[w.at + 8]) else copied;
        ReadResult(MapNiError(st.error), count, st.ibsta / END_BIT % 2 == 1)
  }

  /** What the response says after its data blocks: a whole status block with the right id, and
      the error in its fourth byte. */
  predicate Said(r: seq<byte>, at: nat, rc: Rc, end: bool) {
    if at + 8 > |r| || r[at] != 0x38 then rc.IoError? && !end
    else
      && (rc.Ok? <==> r[at + 3] == 0) && (rc.Aborted? <==> r[at + 3] == 1) && (rc.TimedOut? <==> r[at + 3] == 10)
      && (rc.NoListener? <==> r[at + 3] == 5 || r[at + 3] == 8) && !rc.NotReady?
      && (end <==> r[at + 1] / 0x20 % 2 == 1)
  }

  lemma InterpretSays(r: seq<byte>, w: Walked, requestCount: nat)
    ensures var result := Interpret(r, w, requestCount); Said(r, w.at, result.rc, result.end)
  {
    if w.at + 8 <= |r| {
      var st := ParseStatus(r[w.at..]);
      var hi, lo := r[w.at + 1], r[w.at + 2];
      assert st.ibsta == hi as int * 0x100 + lo as int;
      assert st.ibsta / END_BIT == hi / 0x20;
    }
  }

  /** `buf` holds the first bytes of `payload`, as many as were asked for. */
  ghost predicate Holds(buf: seq<byte>, n: nat, payload: seq<byte>, requestCount: nat) {
    n == Min(|payload|, requestCount) && n <= |buf| && buf[..n] == payload[..n]
  }

  /** The bytes of one block, up to its size or the end of the response. */
  method CopyBlock(resp: array<byte>, respLen: nat, from: nat, size: nat, buf: array<byte>, n: nat, requestCount: nat,
                   ghost payload: seq<byte>) returns (p: nat, out: nat)
    requires from <= respLen <= resp.Length && requestCount <= buf.Length && buf != resp
    requires Holds(buf[..], n, payload, requestCount)
    modifies buf
    ensures p == Min(from + size, respLen)
    ensures Holds(buf[..], out, payload + resp[from..p], requestCount)
    ensures buf[requestCount..] == old(buf[requestCount..])
  {
    p, out := from, n;
    var k := 0;
    while k < size && p < respLen
      invariant 0 <= k <= size && p == from + k <= respLen
      invariant Holds(buf[..], out, payload + resp[from..p], requestCount)
      invariant buf[requestCount..] == old(buf[requestCount..])
    {
      assert payload + resp[from..p + 1] == payload + resp[from..p] + [resp[p]];
      if out < requestCount {
        ghost var before := buf[..];
        buf[out] := resp[p];
        assert buf[..out + 1] == before[..out] + [resp[p]];
        out := out + 1;
      }
      k, p := k + 1, p + 1;
    }
  }

  /** The loop over the data blocks. */
  method DecodeBlocks(resp: array<byte>, respLen: nat, buf: array<byte>, requestCount: nat)
    returns (p: nat, bytesOut: nat, blockPayload: nat)
    requires respLen <= resp.Length && requestCount <= buf.Length && buf != resp
    modifies buf
    ensures var w := Walk(resp[..respLen], Walked([], 0, 0));
            p == w.at && blockPayload == w.block && Holds(buf[..], bytesOut, w.payload, requestCount)
    ensures buf[requestCount..] == old(buf[requestCount..])
  {
    ghost var r := resp[..respLen];
    ghost var w := Walked([], 0, 0);
    p, bytesOut, blockPayload := 0, 0, 0;
    while p < respLen && (resp[p] == IBRD_DATA_ID || resp[p] == IBRD_EXTENDED_DATA_ID)
      invariant w.at == p && w.block == blockPayload && resp[..respLen] == r
      invariant Walk(r, w) == Walk(r, Walked([], 0, 0))
      invariant Holds(buf[..], bytesOut, w.payload, requestCount)
      invariant buf[requestCount..] == old(buf[requestCount..])
      decreases if p <= respLen then respLen - p else 0
    {
      assert resp[p] == r[p];
      ghost var next := NextBlock(r, w);
      if resp[p] == IBRD_DATA_ID {
        blockPayload, p := 15, p + 1;
      } else {
        blockPayload, p := 30, p + 2;
      }
      if p <= respLen {
        var end := Min(p + blockPayload, respLen);
        SliceOfPrefix(resp[..], respLen, p, end);
        assert resp[..][..respLen] == resp[..respLen] && resp[..][p..end] == resp[p..end];
        p, bytesOut := CopyBlock(resp, respLen, p, blockPayload, buf, bytesOut, requestCount, w.payload);
      }
      w := next;
    }
  }

  /** Decode a response into `buf`. Reads nothing past the response, writes nothing past the
      request, and the bytes reported are the first of the payload. */
  method DecodeRead(resp: array<byte>, respLen: nat, buf: array<byte>, requestCount: nat) returns (result: ReadResult)
    requires respLen <= resp.Length && requestCount <= buf.Length && buf != resp
    modifies buf
    ensures var r := resp[..respLen]; var w := Walk(r, Walked([], 0, 0));
            && result == Interpret(r, w, requestCount) && result.count <= |w.payload|
            && buf[..result.count] == w.payload[..result.count]
            && Said(r, w.at, result.rc, result.end)
    ensures buf[requestCount..] == old(buf[requestCount..])
  {
    InterpretSays(resp[..respLen], Walk(resp[..respLen], Walked([], 0, 0)), requestCount);
    var p, bytesOut, blockPayload := DecodeBlocks(resp, respLen, buf, requestCount);
    if p + 8 > respLen {
      return ReadResult(IoError, bytesOut, false);
    }
    SliceOfPrefix(resp[..], respLen, p, respLen);
    assert resp[..][..respLen] == resp[..respLen] && resp[..][p..respLen] == resp[p..respLen];
    var st := ParseStatus(resp[p..respLen]);
    p := p + 8;
    if st.id != IBRD_STATUS_ID {
      return ReadResult(IoError, bytesOut, false);
    }
    ghost var copied := bytesOut;
    if blockPayload != 0 && p < respLen && bytesOut > 0 {
      bytesOut := Trim(bytesOut, blockPayload, resp[p]);
    }
    assert buf[..bytesOut] == buf[..copied][..bytesOut];
    result := ReadResult(MapNiError(st.error), bytesOut, st.ibsta / END_BIT % 2 == 1);
  }

  lemma NextEncoded(r: seq<byte>, w: Walked, b: Block, more: seq<byte>)
    requires b.Valid() && w.at <= |r| && r[w.at..] == b.Encode() + more
    ensures IsData(r, w.at) && w.at + |b.Encode()| <= |r|
    ensures NextBlock(r, w) == Walked(w.payload + b.payload, w.at + |b.Encode()|, b.Size())
    ensures r[w.at + |b.Encode()|..] == more
  {
    var code := b.Encode();
    assert r[w.at] == (code + more)[0];
    var start := w.at + |code| - b.Size();
    assert r[start..w.at + |code|] == r[w.at..][start - w.at..|code|] == b.payload;
  }

  function After(w: Walked, b: Block): Walked {
    Walked(w.payload + b.payload, w.at + |b.Encode()|, b.Size())
  }

  lemma WalkOne(r: seq<byte>, w: Walked, bs: seq<Block>, rest: seq<byte>)
    requires bs != [] && bs[0].Valid()
    requires w.at <= |r| && r[w.at..] == EncodeAll(bs) + rest
    ensures var n := After(w, bs[0]); Walk(r, w) == Walk(r, n) && n.at <= |r| && r[n.at..] == EncodeAll(bs[1..]) + rest
  {
    var more := EncodeAll(bs[1..]);
    Associative(bs[0].Encode(), more, rest);
    NextEncoded(r, w, bs[0], more + rest);
  }

  function AfterAll(w: Walked, bs: seq<Block>): Walked
    decreases |bs|
  {
    if bs == [] then w else AfterAll(After(w, bs[0]), bs[1..])
  }

  lemma {:induction false} AfterAllPayload(w: Walked, bs: seq<Block>)
    ensures AfterAll(w, bs).payload == w.payload + Payloads(bs)
    decreases |bs|
  {
    if bs != [] {
      AfterAllPayload(After(w, bs[0]), bs[1..]);
      Associative(w.payload, bs[0].payload, Payloads(bs[1..]));
    }
  }

  lemma {:induction false} AfterAllAt(w: Walked, bs: seq<Block>)
    ensures AfterAll(w, bs).at == w.at + |EncodeAll(bs)|
    decreases |bs|
  {
    if bs != [] {
      AfterAllAt(After(w, bs[0]), bs[1..]);
    }
  }

  lemma {:induction false} AfterAllBlock(w: Walked, bs: seq<Block>)
    ensures AfterAll(w, bs).block == if bs == [] then w.block else bs[|bs| - 1].Size()
    decreases |bs|
  {
    if |bs| > 1 {
      AfterAllBlock(After(w, bs[0]), bs[1..]);
      assert bs[1..][|bs[1..]| - 1] == bs[|bs| - 1];
    } else if |bs| == 1 {
      assert AfterAll(After(w, bs[0]), bs[1..]) == After(w, bs[0]);
    }
  }

  lemma {:induction false} WalkEncoded(r: seq<byte>, w: Walked, bs: seq<Block>, rest: seq<byte>)
    requires forall b :: b in bs ==> b.Valid()
    requires w.at <= |r| && r[w.at..] == EncodeAll(bs) + rest && !IsData(rest, 0)
    ensures Walk(r, w) == AfterAll(w, bs)
    decreases |bs|
  {
    if bs == [] {
      assert r[w.at..] == rest;
      assert rest != [] ==> r[w.at] == rest[0];
    } else {
      assert bs[0].Valid();
      WalkOne(r, w, bs, rest);
      WalkEncoded(r, After(w, bs[0]), bs[1..], rest);
    }
  }

  lemma {:induction false} PayloadLength(bs: seq<Block>)
    requires bs != [] && forall b :: b in bs ==> b.Valid()
    ensures |Payloads(bs)| >= bs[|bs| - 1].Size()
    ensures |Payloads(bs)| % 15 == 0
  {
    assert bs[0].Valid();
    if |bs| > 1 {
      PayloadLength(bs[1..]);
      assert bs[1..][|bs[1..]| - 1] == bs[|bs| - 1];
    } else {
      assert Payloads(bs) == bs[0].payload + Payloads(bs[1..]);
    }
  }

  lemma TrimExact(total: nat, size: nat, tail: nat, request: nat)
    requires (size == 15 || size == 30) && size <= total && 1 <= tail <= size && total - size + tail <= request
    ensures Trim(Min(total, request), size, tail) == total - size + tail <==>
              (total <= request && total % size == 0) || (request < size && total == size)
  {
    var copied := Min(total, request);
    var q := copied / size;
    assert size == 15 ==> copied == 15 * q + copied % 15;
    assert size == 30 ==> copied == 30 * q + copied % 30;
    assert size == 15 ==> (q - 1) * size == 15 * q - 15;
    assert size == 30 ==> (q - 1) * size == 30 * q - 30;
  }

  /** For every block sequence a well-behaved adapter can send for `request` bytes, with the
      last block valid up to `tail`: the message is decoded exactly if nothing was cut off
      and the total is a multiple of the last block, or a single block answers a request
      shorter than itself. Otherwise the trim drops or keeps too much. */
  lemma ReadDecodes(bs: seq<Block>, ibsta: nat, error: byte, tail: byte, request: nat)
    requires bs != [] && (forall b :: b in bs ==> b.Valid()) && ibsta < 0x1_0000
    requires var size := bs[|bs| - 1].Size(); 1 <= tail <= size && |Payloads(bs)| - size + tail <= request
    ensures var size, sent := bs[|bs| - 1].Size(), Payloads(bs);
            var w := Walk(Response(bs, ibsta, error, tail), Walked([], 0, 0));
            var result := Interpret(Response(bs, ibsta, error, tail), w, request);
            && w.payload == sent && result.count <= |sent|
            && result.rc == MapNiError(error) && result.end == (ibsta / END_BIT % 2 == 1)
            && (result.count == |sent| - size + tail <==>
                  (|sent| <= request && |sent| % size == 0) || (request < size && |sent| == size))
  {
    var r, rest := Response(bs, ibsta, error, tail), StatusBytes(IBRD_STATUS_ID, ibsta, error, 0) + [tail];
    var w := ResponseWalk(bs, r, rest);
    PayloadLength(bs);
    InterpretTail(r, w, rest, ibsta, error, tail, request);
    TrimExact(|Payloads(bs)|, bs[|bs| - 1].Size(), tail, request);
  }

  lemma ResponseWalk(bs: seq<Block>, r: seq<byte>, rest: seq<byte>) returns (w: Walked)
    requires bs != [] && (forall b :: b in bs ==> b.Valid()) && r == EncodeAll(bs) + rest && !IsData(rest, 0)
    ensures w == Walk(r, Walked([], 0, 0)) && w.payload == Payloads(bs) && w.block == bs[|bs| - 1].Size()
    ensures w.at <= |r| && r[w.at..] == rest
  {
    var start := Walked([], 0, 0);
    w := AfterAll(start, bs);
    assert r[0..] == EncodeAll(bs) + rest;
    WalkEncoded(r, start, bs, rest);
    AfterAllPayload(start, bs);
    AfterAllAt(start, bs);
    AfterAllBlock(start, bs);
    assert [] + Payloads(bs) == Payloads(bs);
  }

  function Response(bs: seq<Block>, ibsta: nat, error: byte, tail: byte): seq<byte>
    requires ibsta < 0x1_0000
  {
    EncodeAll(bs) + (StatusBytes(IBRD_STATUS_ID, ibsta, error, 0) + [tail])
  }

  lemma InterpretTail(r: seq<byte>, w: Walked, rest: seq<byte>, ibsta: nat, error: byte, tail: byte, request: nat)
    requires ibsta < 0x1_0000 && w.at <= |r| && r[w.at..] == rest && w.block > 0 && Min(|w.payload|, request) > 0
    requires rest == StatusBytes(IBRD_STATUS_ID, ibsta, error, 0) + [tail]
    ensures Interpret(r, w, request) ==
      ReadResult(MapNiError(error), Trim(Min(|w.payload|, request), w.block, tail), ibsta / END_BIT % 2 == 1)
  {
    StatusRoundTrip(IBRD_STATUS_ID, ibsta, error, 0, 0);
    assert r[w.at + 8] == rest[8];
  }

  /** A short block before a long one: all 45 bytes are valid, and the trim keeps 30. */
  lemma MixedBlocksAreCut(short: seq<byte>, long: seq<byte>, ibsta: nat, error: byte)
    requires |short| == 15 && |long| == 30 && ibsta < 0x1_0000
    ensures var bs := [Short(short), Long(0, long)];
            var r := Response(bs, ibsta, error, 30);
            Payloads(bs) == short + long && Interpret(r, Walk(r, Walked([], 0, 0)), 45).count == 30
  {
    var bs := [Short(short), Long(0, long)];
    TwoBlocks(bs[0], bs[1]);
    var r, rest := Response(bs, ibsta, error, 30), StatusBytes(IBRD_STATUS_ID, ibsta, error, 0) + [30];
    DecodedTwo(r, bs[0], bs[1], rest);
    InterpretTail(r, AfterAll(Walked([], 0, 0), bs), rest, ibsta, error, 30, 45);
  }

  /** Two short blocks of which 16 bytes are valid, for a request of just those 16: the trim
      works on what fitted and keeps one byte. */
  lemma ExactRequestIsCut(first: seq<byte>, second: seq<byte>, ibsta: nat, error: byte)
    requires |first| == |second| == 15 && ibsta < 0x1_0000
    ensures var bs := [Short(first), Short(second)];
            var r := Response(bs, ibsta, error, 1);
            Payloads(bs) == first + second && Interpret(r, Walk(r, Walked([], 0, 0)), 16).count == 1
  {
    var bs := [Short(first), Short(second)];
    TwoBlocks(bs[0], bs[1]);
    var r, rest := Response(bs, ibsta, error, 1), StatusBytes(IBRD_STATUS_ID, ibsta, error, 0) + [1];
    DecodedTwo(r, bs[0], bs[1], rest);
    InterpretTail(r, AfterAll(Walked([], 0, 0), bs), rest, ibsta, error, 1, 16);
  }

  lemma TwoBlocks(a: Block, b: Block)
    ensures Payloads([a, b]) == a.payload + b.payload
  {
    assert [a, b][1..] == [b] && [b][1..] == [];
    assert Payloads([b]) == b.payload + Payloads([]);
  }

  lemma DecodedTwo(r: seq<byte>, a: Block, b: Block, rest: seq<byte>)
    requires a.Valid() && b.Valid() && r == EncodeAll([a, b]) + rest && !IsData(rest, 0)
    ensures var w := AfterAll(Walked([], 0, 0), [a, b]);
            && Walk(r, Walked([], 0, 0)) == w && w.at <= |r| && r[w.at..] == rest
            && w.payload == a.payload + b.payload && w.block == b.Size()
  {
    var bs := [a, b];
    assert r[0..] == EncodeAll(bs) + rest;
    WalkEncoded(r, Walked([], 0, 0), bs, rest);
    AfterAllPayload(Walked([], 0, 0), bs);
    AfterAllAt(Walked([], 0, 0), bs);
    AfterAllBlock(Walked([], 0, 0), bs);
    TwoBlocks(a, b);
  }
}
