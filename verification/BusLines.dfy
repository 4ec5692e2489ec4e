/** The register with the state of the bus lines, as the flags that the board looks at. */
module BusLines {
  import opened Bytes
  import opened Trace

  function Bit(v: byte, mask: nat): (b: nat)
    requires mask > 0
    ensures b <= 1
  {
    if HasBit(v, mask) then 1 else 0
  }

  /** The board's flags DAV, NDAC, NRFD, IFC, REN, SRQ, ATN and EOI from the lowest bit up. */
  function Flags(dav: nat, ndac: nat, nrfd: nat, ifc: nat, ren: nat, srq: nat, atn: nat, eoi: nat): nat {
    dav + 2 * ndac + 4 * nrfd + 8 * ifc + 0x10 * ren + 0x20 * srq + 0x40 * atn + 0x80 * eoi
  }

  function HighLines(v: byte): nat {
    Flags(Bit(v, 0x40), Bit(v, 0x20), Bit(v, 0x10), Bit(v, 0x02),
          Bit(v, 0x01), Bit(v, 0x04), Bit(v, 0x80), Bit(v, 0x08))
  }

  /** The lines of the register as the board's flags, above the eight bits that call them valid. */
  function Lines(v: byte): nat {
    0xFF + HighLines(v) * 0x100
  }

  lemma FlagsParts(dav: nat, ndac: nat, nrfd: nat, ifc: nat, ren: nat, srq: nat, atn: nat, eoi: nat)
    requires dav <= 1 && ndac <= 1 && nrfd <= 1 && ifc <= 1 && ren <= 1 && srq <= 1 && atn <= 1 && eoi <= 1
    ensures var h := Flags(dav, ndac, nrfd, ifc, ren, srq, atn, eoi);
            && h <= 0xFF && h / 2 % 2 == ndac
            && (h == 0 <==> dav == ndac == nrfd == ifc == ren == srq == atn == eoi == 0)
  {
    var rest := nrfd + 2 * ifc + 4 * ren + 8 * srq + 0x10 * atn + 0x20 * eoi;
    assert (dav + 2 * ndac + 4 * rest) / 2 == ndac + 2 * rest;
  }

  predicate AllClear(v: byte) {
    && !HasBit(v, 0x01) && !HasBit(v, 0x02) && !HasBit(v, 0x04) && !HasBit(v, 0x08)
    && !HasBit(v, 0x10) && !HasBit(v, 0x20) && !HasBit(v, 0x40) && !HasBit(v, 0x80)
  }

  lemma NoBits(v: byte)
    ensures AllClear(v) <==> v == 0
  {
    var a := v / 2;
    var b, c := a / 2, a / 4;
    assert b == v / 4 && c == v / 8;
    var d, e := c / 2, c / 4;
    assert d == v / 0x10 && e == v / 0x20;
    var f, g := e / 2, e / 4;
    assert f == v / 0x40 && g == v / 0x80;
  }

  lemma LinesParts(h: nat)
    requires h <= 0xFF
    ensures var lines := 0xFF + h * 0x100;
            && lines % 0x100 == 0xFF && lines / 0x100 % 0x100 == h && lines / 0x200 == h / 2 && lines / 2 % 2 == 1
  {
    var lines := 0xFF + h * 0x100;
    assert lines / 0x100 == h && lines / 2 == 0x7F + 0x80 * h;
    assert lines / 0x200 == lines / 0x100 / 2;
  }

  /** One bit at a time, so that no more than a comparison is left of the register. */
  lemma HighLinesRead(v: byte)
    ensures HighLines(v) <= 0xFF && HighLines(v) / 2 % 2 == Bit(v, 0x20)
    ensures HighLines(v) == 0 <==> NoneSet([Bit(v, 0x40), Bit(v, 0x20), Bit(v, 0x10), Bit(v, 0x02),
                                            Bit(v, 0x01), Bit(v, 0x04), Bit(v, 0x80), Bit(v, 0x08)])
  {
    var b := [Bit(v, 0x40), Bit(v, 0x20), Bit(v, 0x10), Bit(v, 0x02),
              Bit(v, 0x01), Bit(v, 0x04), Bit(v, 0x80), Bit(v, 0x08)];
    FlagsParts(b[0], b[1], b[2], b[3], b[4], b[5], b[6], b[7]);
  }

  predicate NoneSet(b: seq<nat>)
    requires |b| == 8
  {
    b[0] == b[1] == b[2] == b[3] == b[4] == b[5] == b[6] == b[7] == 0
  }

  lemma FourBits(a: nat, b: nat, c: nat, d: nat, rest: nat)
    requires a <= 1 && b <= 1 && c <= 1 && d <= 1
    ensures var n := a + 2 * b + 4 * c + 8 * d + 0x10 * rest;
            n % 2 == a && n / 2 % 2 == b && n / 4 % 2 == c && n / 8 % 2 == d && n / 0x10 == rest
  {
    var n3 := d + 2 * rest;
    var n2 := c + 2 * n3;
    var n1 := b + 2 * n2;
    var n := a + 2 * n1;
    Peel(a, n1);
    Peel(b, n2);
    Peel(c, n3);
    Peel(d, rest);
    assert n / 4 == n1 / 2 && n / 8 == n1 / 4 && n1 / 4 == n2 / 2 && n / 0x10 == n1 / 8 && n1 / 8 == n2 / 4;
    assert n2 / 4 == n3 / 2;
  }

  lemma Peel(a: nat, rest: nat)
    requires a <= 1
    ensures (a + 2 * rest) % 2 == a && (a + 2 * rest) / 2 == rest
  {
  }

  lemma FlagBits(dav: nat, ndac: nat, nrfd: nat, ifc: nat, ren: nat, srq: nat, atn: nat, eoi: nat)
    requires dav <= 1 && ndac <= 1 && nrfd <= 1 && ifc <= 1 && ren <= 1 && srq <= 1 && atn <= 1 && eoi <= 1
    ensures var h := Flags(dav, ndac, nrfd, ifc, ren, srq, atn, eoi); var high := h / 0x10;
            && h % 2 == dav && h / 2 % 2 == ndac && h / 4 % 2 == nrfd && h / 8 % 2 == ifc
            && high % 2 == ren && high / 2 % 2 == srq && high / 4 % 2 == atn && high / 8 % 2 == eoi
  {
    var high := ren + 2 * srq + 4 * atn + 8 * eoi;
    FourBits(dav, ndac, nrfd, ifc, high);
    FourBits(ren, srq, atn, eoi, 0);
  }

  lemma AboveByte(h: nat)
    ensures var n, high := 0xFF + h * 0x100, h / 0x10;
            && n / 0x100 == h && n / 0x200 == h / 2 && n / 0x400 == h / 4 && n / 0x800 == h / 8
            && n / 0x1000 == high && n / 0x2000 == high / 2 && n / 0x4000 == high / 4 && n / 0x8000 == high / 8
  {
  }

  /** The lines of the register: DAV, NDAC, NRFD, IFC, REN, SRQ, ATN, EOI. */
  function RegisterLines(v: byte): (b: seq<nat>)
    ensures |b| == 8 && forall i :: 0 <= i < 8 ==> b[i] <= 1
  {
    [Bit(v, 0x40), Bit(v, 0x20), Bit(v, 0x10), Bit(v, 0x02), Bit(v, 0x01), Bit(v, 0x04), Bit(v, 0x80), Bit(v, 0x08)]
  }

  /** The same lines, where the board looks for them. */
  function BoardLines(lines: nat): seq<nat> {
    [lines / 0x100 % 2, lines / 0x200 % 2, lines / 0x400 % 2, lines / 0x800 % 2,
     lines / 0x1000 % 2, lines / 0x2000 % 2, lines / 0x4000 % 2, lines / 0x8000 % 2]
  }

  lemma LinesOf(b: seq<nat>, lines: nat)
    requires |b| == 8 && forall i :: 0 <= i < 8 ==> b[i] <= 1
    requires lines == 0xFF + Flags(b[0], b[1], b[2], b[3], b[4], b[5], b[6], b[7]) * 0x100
    ensures BoardLines(lines) == b
  {
    AboveByte(Flags(b[0], b[1], b[2], b[3], b[4], b[5], b[6], b[7]));
    FlagBits(b[0], b[1], b[2], b[3], b[4], b[5], b[6], b[7]);
  }

  /** Every line of the register is the line that the board sees. */
  lemma LineBits(v: byte)
    ensures BoardLines(Lines(v)) == RegisterLines(v)
  {
    LinesOf(RegisterLines(v), Lines(v));
  }

  /** What the board asks of the lines: it takes them for not reported exactly if the register
      reads zero, and NDAC is the sixth bit of the register. */
  lemma LinesRead(v: byte, lines: nat)
    requires lines == Lines(v)
    ensures lines % 0x100 == 0xFF && (lines / 0x100 % 0x100 != 0 <==> v != 0)
    ensures lines / 2 % 2 == 1 && (lines / 0x200 % 2 == 1 <==> HasBit(v, 0x20))
  {
    var h := HighLines(v);
    HighLinesRead(v);
    LinesParts(h);
    NoBits(v);
  }
}
