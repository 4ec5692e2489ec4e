/** Endpoint discovery: the walk over a raw USB configuration descriptor. */
module Endpoints {
  import opened Bytes

  const TYPE_INTERFACE: byte := 4
  const TYPE_ENDPOINT: byte := 5
  const MAX_ENDPOINTS := 8

  /** A descriptor as section 9.6 of the USB 2.0 specification lays it out:
      its length in bytes, its type, and the rest. */
  datatype Descriptor = Descriptor(kind: byte, body: seq<byte>)
  {
    predicate Encodable() {
      |body| <= 0xFD
    }

    predicate IsInterface() {
      kind == TYPE_INTERFACE
    }

    predicate Selects(iface: byte, alt: byte) {
      IsInterface() && |body| >= 2 && body[0] == iface && body[1] == alt
    }

    predicate IsEndpoint() {
      kind == TYPE_ENDPOINT && |body| >= 1
    }

    function Serialise(): seq<byte>
      requires Encodable()
    {
      [|body| + 2, kind] + body
    }
  }

  function SerialiseAll(ds: seq<Descriptor>): seq<byte>
    requires forall d :: d in ds ==> d.Encodable()
  {
    if ds == [] then [] else ds[0].Serialise() + SerialiseAll(ds[1..])
  }

  /** Does descriptor `k` belong to the wanted interface: is the last interface descriptor
      before it the one selected? */
  predicate Within(ds: seq<Descriptor>, k: nat, iface: byte, alt: byte)
    requires k <= |ds|
  {
    exists j :: 0 <= j < k && ds[j].Selects(iface, alt) && NoInterface(ds, j + 1, k)
  }

  predicate NoInterface(ds: seq<Descriptor>, from: nat, to: nat)
    requires to <= |ds|
  {
    forall m :: from <= m < to ==> !ds[m].IsInterface()
  }

  /** The addresses of the wanted endpoints among the first `k` descriptors, in order. */
  function Wanted(ds: seq<Descriptor>, k: nat, iface: byte, alt: byte): seq<byte>
    requires k <= |ds|
  {
    if k == 0 then []
    else Wanted(ds, k - 1, iface, alt) +
         (if ds[k - 1].IsEndpoint() && Within(ds, k - 1, iface, alt) then [ds[k - 1].body[0]] else [])
  }

  function First(n: nat, s: seq<byte>): seq<byte> {
    s[..Min(n, |s|)]
  }

  datatype State = State(addrs: seq<byte>, inside: bool)

  /** One descriptor of `len` bytes at `off`. */
  function Visit(raw: seq<byte>, off: nat, s: State, iface: byte, alt: byte): State
    requires off + 2 <= |raw| && 2 <= raw[off] && off + raw[off] <= |raw|
  {
    var len, kind := raw[off], raw[off + 1];
    if kind == TYPE_INTERFACE then
      s.(inside := len >= 4 && raw[off + 2] == iface && raw[off + 3] == alt)
    else if kind == TYPE_ENDPOINT && s.inside && len >= 3 && |s.addrs| < MAX_ENDPOINTS then
      s.(addrs := s.addrs + [raw[off + 2]])
    else s
  }

  /** What the walk over the bytes from `off` on finds; it stops at the first descriptor
      that is cut short or claims less than its own header. */
  function Walk(raw: seq<byte>, off: nat, s: State, iface: byte, alt: byte): (r: seq<byte>)
    requires off <= |raw|
    decreases |raw| - off
  {
    if off + 2 > |raw| || raw[off] < 2 || off + raw[off] > |raw| then s.addrs
    else Walk(raw, off + raw[off], Visit(raw, off, s, iface, alt), iface, alt)
  }

  const PIPE_DATA_OUT := 2
  const PIPE_CMD_OUT := 3
  const PIPE_DATA_IN := 4
  const PIPE_COUNT_MIN := 5
  const DIRECTION_IN := 0x80

  datatype Pipes = Unusable | Pipes(dataOut: byte, cmdOut: byte, dataIn: byte)

  /** Enough endpoints, with the directions the three positions call for. */
  predicate Fits(addrs: seq<byte>) {
    && |addrs| >= PIPE_COUNT_MIN
    && addrs[PIPE_DATA_OUT] < DIRECTION_IN && addrs[PIPE_CMD_OUT] < DIRECTION_IN
    && addrs[PIPE_DATA_IN] >= DIRECTION_IN
  }

  /** Pipes are chosen by position; a direction that does not fit rejects the device. */
  function Choose(addrs: seq<byte>): (p: Pipes)
    ensures p.Pipes? <==> Fits(addrs)
    ensures p.Pipes? ==> p == Pipes(addrs[2], addrs[3], addrs[4])
    ensures p.Pipes? ==> p.dataOut < DIRECTION_IN && p.cmdOut < DIRECTION_IN && p.dataIn >= DIRECTION_IN
  {
    if |addrs| < PIPE_COUNT_MIN then Unusable
    else
      var dataOut, cmdOut, dataIn := addrs[PIPE_DATA_OUT], addrs[PIPE_CMD_OUT], addrs[PIPE_DATA_IN];
      if dataOut >= DIRECTION_IN || cmdOut >= DIRECTION_IN || dataIn < DIRECTION_IN then Unusable
      else Pipes(dataOut, cmdOut, dataIn)
  }

  /** The loop itself, over a buffer of which only the first `total` bytes may be read. */
  method ResolveEndpoints(raw: array<byte>, total: nat, iface: byte, alt: byte) returns (pipes: Pipes)
    requires total <= raw.Length
    ensures pipes == Choose(Walk(raw[..total], 0, State([], false), iface, alt))
  {
    ghost var bytes := raw[..total];
    var s := State([], false);
    var off := 0;
    while off + 2 <= total
      invariant off <= total
      invariant Walk(bytes, 0, State([], false), iface, alt) == Walk(bytes, off, s, iface, alt)
      decreases total - off
    {
      var len, kind := raw[off], raw[off + 1];
      assert len == bytes[off] && kind == bytes[off + 1];
      if len < 2 || off + len > total {
        break;
      }
      if kind == TYPE_INTERFACE {
        s := s.(inside := len >= 4 && raw[off + 2] == iface && raw[off + 3] == alt);
      } else if kind == TYPE_ENDPOINT && s.inside {
        if len >= 3 && |s.addrs| < MAX_ENDPOINTS {
          s := s.(addrs := s.addrs + [raw[off + 2]]);
        }
      }
      off := off + len;
    }
    assert Walk(bytes, off, s, iface, alt) == s.addrs;
    pipes := Choose(s.addrs);
  }

  lemma {:induction false} SerialiseSplit(ds: seq<Descriptor>, k: nat)
    requires forall d :: d in ds ==> d.Encodable()
    requires k <= |ds|
    ensures SerialiseAll(ds) == SerialiseAll(ds[..k]) + SerialiseAll(ds[k..])
    decreases k
  {
    if k == 0 {
      assert ds[..0] == [] && ds[0..] == ds;
    } else {
      var head, rest := ds[0].Serialise(), ds[1..];
      SerialiseSplit(rest, k - 1);
      assert rest[..k - 1] == ds[..k][1..] && rest[k - 1..] == ds[k..] && ds[..k][0] == ds[0];
      Associative(head, SerialiseAll(rest[..k - 1]), SerialiseAll(ds[k..]));
    }
  }

  /** Descriptor `k` sits whole at its boundary, and the next boundary follows it. */
  lemma Boundary(ds: seq<Descriptor>, k: nat)
    requires forall d :: d in ds ==> d.Encodable()
    requires k < |ds|
    ensures var raw, off := SerialiseAll(ds), |SerialiseAll(ds[..k])|;
            && off + |ds[k].body| + 2 == |SerialiseAll(ds[..k + 1])| <= |raw|
            && forall i :: 0 <= i < |ds[k].Serialise()| ==> raw[off + i] == ds[k].Serialise()[i]
  {
    SerialiseSplit(ds, k);
    assert ds[k..][0] == ds[k];
    SerialiseSplit(ds[..k + 1], k);
    assert ds[..k + 1][..k] == ds[..k] && ds[..k + 1][k..] == [ds[k]];
    assert SerialiseAll([ds[k]]) == ds[k].Serialise() + SerialiseAll([ds[k]][1..]);
    SerialiseSplit(ds, k + 1);
  }

  function Reached(ds: seq<Descriptor>, k: nat, iface: byte, alt: byte): State
    requires k <= |ds|
  {
    State(First(MAX_ENDPOINTS, Wanted(ds, k, iface, alt)), Within(ds, k, iface, alt))
  }

  lemma VisitNext(ds: seq<Descriptor>, k: nat, raw: seq<byte>, off: nat, iface: byte, alt: byte)
    requires k < |ds| && ds[k].Encodable() && off + |ds[k].body| + 2 <= |raw|
    requires forall i :: 0 <= i < |ds[k].Serialise()| ==> raw[off + i] == ds[k].Serialise()[i]
    ensures raw[off] == |ds[k].body| + 2
    ensures Visit(raw, off, Reached(ds, k, iface, alt), iface, alt) == Reached(ds, k + 1, iface, alt)
  {
    WithinNext(ds, k, iface, alt);
    VisitDescriptor(raw, off, ds[k], Reached(ds, k, iface, alt), iface, alt);
  }

  lemma WalkOne(raw: seq<byte>, off: nat, next: nat, s: State, t: State, iface: byte, alt: byte)
    requires off + 2 <= |raw| && 2 <= raw[off] && off + raw[off] == next <= |raw|
    requires Visit(raw, off, s, iface, alt) == t
    ensures Walk(raw, off, s, iface, alt) == Walk(raw, next, t, iface, alt)
  {
  }

  /** Over one descriptor, from boundary to boundary. */
  lemma WalkNext(ds: seq<Descriptor>, k: nat, raw: seq<byte>, off: nat, next: nat, iface: byte, alt: byte)
    requires k < |ds| && forall d :: d in ds ==> d.Encodable()
    requires raw == SerialiseAll(ds) && off == |SerialiseAll(ds[..k])| && next == |SerialiseAll(ds[..k + 1])|
    ensures off <= next <= |raw|
    ensures Walk(raw, off, Reached(ds, k, iface, alt), iface, alt) ==
              Walk(raw, next, Reached(ds, k + 1, iface, alt), iface, alt)
  {
    Boundary(ds, k);
    VisitNext(ds, k, raw, off, iface, alt);
    WalkOne(raw, off, next, Reached(ds, k, iface, alt), Reached(ds, k + 1, iface, alt), iface, alt);
  }

  /** From the descriptor boundary `k` on, the walk completes the list of wanted endpoints. */
  lemma {:induction false} WalkFrom(ds: seq<Descriptor>, k: nat, iface: byte, alt: byte)
    requires forall d :: d in ds ==> d.Encodable()
    requires k <= |ds|
    ensures |SerialiseAll(ds[..k])| <= |SerialiseAll(ds)|
    ensures Walk(SerialiseAll(ds), |SerialiseAll(ds[..k])|, Reached(ds, k, iface, alt), iface, alt) ==
              First(MAX_ENDPOINTS, Wanted(ds, |ds|, iface, alt))
    decreases |ds| - k
  {
    if k == |ds| {
      assert ds[..k] == ds;
      WalkAtEnd(SerialiseAll(ds), Reached(ds, k, iface, alt), iface, alt);
    } else {
      WalkFrom(ds, k + 1, iface, alt);
      WalkNext(ds, k, SerialiseAll(ds), |SerialiseAll(ds[..k])|, |SerialiseAll(ds[..k + 1])|, iface, alt);
    }
  }

  lemma WalkAtEnd(raw: seq<byte>, s: State, iface: byte, alt: byte)
    ensures Walk(raw, |raw|, s, iface, alt) == s.addrs
  {
  }

  lemma WithinNext(ds: seq<Descriptor>, k: nat, iface: byte, alt: byte)
    requires k < |ds|
    ensures Within(ds, k + 1, iface, alt) <==>
      if ds[k].IsInterface() then ds[k].Selects(iface, alt) else Within(ds, k, iface, alt)
  {
    if ds[k].Selects(iface, alt) {
      assert NoInterface(ds, k + 1, k + 1);
    }
    if !ds[k].IsInterface() && Within(ds, k, iface, alt) {
      var j :| 0 <= j < k && ds[j].Selects(iface, alt) && NoInterface(ds, j + 1, k);
      assert NoInterface(ds, j + 1, k + 1);
    }
    if Within(ds, k + 1, iface, alt) {
      var j :| 0 <= j < k + 1 && ds[j].Selects(iface, alt) && NoInterface(ds, j + 1, k + 1);
      assert j < k ==> NoInterface(ds, j + 1, k) && !ds[k].IsInterface();
    }
  }

  lemma VisitDescriptor(raw: seq<byte>, off: nat, d: Descriptor, s: State, iface: byte, alt: byte)
    requires d.Encodable() && off + |d.body| + 2 <= |raw|
    requires forall i :: 0 <= i < |d.Serialise()| ==> raw[off + i] == d.Serialise()[i]
    ensures raw[off] == |d.body| + 2
    ensures Visit(raw, off, s, iface, alt) ==
      if d.IsInterface() then s.(inside := d.Selects(iface, alt))
      else if d.IsEndpoint() && s.inside && |s.addrs| < MAX_ENDPOINTS then s.(addrs := s.addrs + [d.body[0]])
      else s
  {
    assert raw[off] == d.Serialise()[0] && raw[off + 1] == d.Serialise()[1];
    assert |d.body| >= 1 ==> raw[off + 2] == d.Serialise()[2];
    assert |d.body| >= 2 ==> raw[off + 3] == d.Serialise()[3];
  }

  /** For every well-formed descriptor list the walk finds exactly the first eight endpoints
      of the wanted interface and alternate setting, in order. */
  lemma WalkFindsEndpoints(ds: seq<Descriptor>, iface: byte, alt: byte)
    requires forall d :: d in ds ==> d.Encodable()
    ensures Walk(SerialiseAll(ds), 0, State([], false), iface, alt) ==
              First(MAX_ENDPOINTS, Wanted(ds, |ds|, iface, alt))
  {
    WalkFrom(ds, 0, iface, alt);
    assert ds[..0] == [];
  }

  /** A device is accepted exactly if the wanted interface has its third and fourth endpoint
      going out and its fifth coming in, and those are the pipes; the limit of eight never
      matters. */
  lemma ChosenPipes(ds: seq<Descriptor>, iface: byte, alt: byte)
    requires forall d :: d in ds ==> d.Encodable()
    ensures var wanted := Wanted(ds, |ds|, iface, alt);
            Choose(Walk(SerialiseAll(ds), 0, State([], false), iface, alt)) ==
              if Fits(wanted) then Pipes(wanted[2], wanted[3], wanted[4]) else Unusable
  {
    WalkFindsEndpoints(ds, iface, alt);
  }
}
