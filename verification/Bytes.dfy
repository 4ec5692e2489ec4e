/** Bytes, machine words and the (byte, EOI) stream that a GPIB listener sees. */
module Bytes {
  type byte = b: int | 0 <= b < 0x100

  type u32 = n: int | 0 <= n < 0x1_0000_0000

  datatype Option<+T> = None | Some(value: T)

  /** Transport-level result codes. */
  datatype Rc = Ok | IoError | TimedOut | NoListener | Aborted | NotReady

  /** One data byte on the bus, with the state of the EOI line while it was sent. */
  datatype BusByte = BusByte(value: byte, eoi: bool)

  function Min(a: int, b: int): int {
    if a <= b then a else b
  }

  function Low(n: nat, shift: nat): byte
    requires shift > 0
  {
    (n / shift) % 0x100
  }

  function Bytes32(n: u32): (s: seq<byte>)
    ensures |s| == 4
  {
    [Low(n, 1), Low(n, 0x100), Low(n, 0x1_0000), Low(n, 0x100_0000)]
  }

  function Value24(s: seq<byte>): nat
    requires |s| >= 3
  {
    s[0] as int + s[1] as int * 0x100 + s[2] as int * 0x1_0000
  }

  function Value32(s: seq<byte>): nat
    requires |s| >= 4
  {
    Value24(s) + s[3] as int * 0x100_0000
  }

  lemma Bytes32RoundTrip(n: u32)
    ensures Value32(Bytes32(n)) == n
    ensures var s := Bytes32(n);
            s[0] as int + s[1] as int * 0x100 + s[2] as int * 0x1_0000 + s[3] as int * 0x100_0000 == n
    ensures n < 0x100_0000 ==> Value24(Bytes32(n)) == n && Bytes32(n)[3] == 0
  {
    var a, b, c := n / 0x100, n / 0x1_0000, n / 0x100_0000;
    assert b == a / 0x100 && c == b / 0x100;
    assert n == n % 0x100 + 0x100 * a && a == a % 0x100 + 0x100 * b && b == b % 0x100 + 0x100 * c;
    assert c % 0x100 == c;
  }

  /** The ideal message: every byte of `data`, with EOI on the last one if asked for. */
  function Tag(data: seq<byte>, eoi: bool): (t: seq<BusByte>)
    ensures |t| == |data|
    ensures forall i :: 0 <= i < |data| ==> t[i] == BusByte(data[i], eoi && i == |data| - 1)
  {
    seq(|data|, i requires 0 <= i < |data| => BusByte(data[i], eoi && i == |data| - 1))
  }

  /** A message may be cut anywhere, the pieces but the last going out without EOI: the
      listener sees no difference exactly if the last piece is not empty. */
  lemma TagSplit(head: seq<byte>, last: seq<byte>, eoi: bool)
    ensures Tag(head + last, eoi) == Tag(head, false) + Tag(last, eoi) <==> last != [] || head == [] || !eoi
  {
    if last == [] && head != [] && eoi {
      assert Tag(head + last, eoi)[|head| - 1].eoi && !(Tag(head, false) + Tag(last, eoi))[|head| - 1].eoi;
    } else {
      assert Tag(head + last, eoi) == Tag(head, false) + Tag(last, eoi);
    }
  }

  lemma Associative<T>(a: seq<T>, b: seq<T>, c: seq<T>)
    ensures a + b + c == a + (b + c)
  {
  }

  lemma SliceOfPrefix<T>(s: seq<T>, n: nat, a: nat, b: nat)
    requires a <= b <= n <= |s|
    ensures s[a..b] == s[..n][a..b]
  {
  }

  function Flatten<T>(parts: seq<seq<T>>): seq<T> {
    if parts == [] then [] else Flatten(parts[..|parts| - 1]) + parts[|parts| - 1]
  }
}
