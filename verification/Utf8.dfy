/** Device strings: a USB string descriptor's UTF-16LE units, turned into UTF-8. */
module Utf8 {
  import opened Bytes

  type Unit = u: int | 0 <= u < 0x1_0000

  function UnitAt(raw: seq<byte>, i: nat): Unit
    requires i < |raw| / 2
  {
    raw[2 * i] as int + raw[2 * i + 1] as int * 0x100
  }

  /** The 16-bit units of a descriptor's string bytes; an odd last byte is ignored. */
  function Units(raw: seq<byte>): (u: seq<Unit>)
    ensures |u| == |raw| / 2
  {
    seq(|raw| / 2, i requires 0 <= i < |raw| / 2 => UnitAt(raw, i))
  }

  /** A string descriptor's bytes for these units, the low byte first. */
  function Utf16(units: seq<Unit>): (raw: seq<byte>)
    ensures |raw| == 2 * |units|
  {
    if units == [] then [] else [units[0] % 0x100, units[0] / 0x100] + Utf16(units[1..])
  }

  /** The units read are the units of the string, whatever single byte may follow. */
  lemma {:induction false} UnitsOfUtf16(units: seq<Unit>, odd: seq<byte>)
    requires |odd| <= 1
    ensures Units(Utf16(units) + odd) == units
  {
    if units != [] {
      var raw, rest := Utf16(units) + odd, Utf16(units[1..]) + odd;
      UnitsOfUtf16(units[1..], odd);
      assert raw[2..] == rest;
      forall i | 0 <= i < |units|
        ensures UnitAt(raw, i) == units[i]
      {
        if i > 0 {
          assert Units(rest)[i - 1] == units[i];
          assert raw[2 * i] == rest[2 * (i - 1)] && raw[2 * i + 1] == rest[2 * (i - 1) + 1];
        }
      }
      assert Units(raw) == units;
    }
  }

  function EncodeUnit(u: Unit): (s: seq<byte>)
    ensures 1 <= |s| <= 3
  {
    if u < 0x80 then [u]
    else if u < 0x800 then [0xC0 + u / 0x40, 0x80 + u % 0x40]
    else [0xE0 + u / 0x1000, 0x80 + u / 0x40 % 0x40, 0x80 + u % 0x40]
  }

  function Encode(units: seq<Unit>): (s: seq<byte>)
    ensures |units| <= |s| <= 3 * |units|
  {
    if units == [] then [] else EncodeUnit(units[0]) + Encode(units[1..])
  }

  lemma EncodeNext(units: seq<Unit>, i: nat, done: seq<byte>)
    requires i < |units|
    ensures done + Encode(units[i..]) == done + EncodeUnit(units[i]) + Encode(units[i + 1..])
  {
    assert units[i..][1..] == units[i + 1..];
  }

  method PutUnit(utf8: array<byte>, pos: nat, ch: Unit) returns (next: nat)
    requires pos + 3 <= utf8.Length
    modifies utf8
    ensures pos < next <= pos + 3 && utf8[..next] == old(utf8[..pos]) + EncodeUnit(ch)
  {
    if ch < 0x80 {
      utf8[pos] := ch;
      next := pos + 1;
    } else if ch < 0x800 {
      utf8[pos] := 0xC0 + ch / 0x40;
      utf8[pos + 1] := 0x80 + ch % 0x40;
      next := pos + 2;
    } else {
      utf8[pos] := 0xE0 + ch / 0x1000;
      utf8[pos + 1] := 0x80 + ch / 0x40 % 0x40;
      utf8[pos + 2] := 0x80 + ch % 0x40;
      next := pos + 3;
    }
  }

  /** The conversion loop: it stays inside its buffer, and fills it with the encoding and a NUL. */
  method CopyDeviceString(raw: seq<byte>) returns (utf8: array<byte>, utf8Pos: nat)
    ensures utf8.Length == 4 * |Units(raw)| + 1 && utf8Pos <= 3 * |Units(raw)| < utf8.Length
    ensures utf8[..utf8Pos] == Encode(Units(raw)) && utf8[utf8Pos] == 0
  {
    var n := |raw| / 2;
    utf8 := new byte[n * 4 + 1];
    ghost var units := Units(raw);
    utf8Pos := 0;
    var i := 0;
    while i < n
      invariant i <= n && utf8Pos <= 3 * i
      invariant Encode(units) == utf8[..utf8Pos] + Encode(units[i..])
    {
      var ch := UnitAt(raw, i);
      EncodeNext(units, i, utf8[..utf8Pos]);
      utf8Pos := PutUnit(utf8, utf8Pos, ch);
      i := i + 1;
    }
    utf8[utf8Pos] := 0;
  }

  // ----- Reading it back -----

  predicate Tail(b: byte) {
    0x80 <= b <= 0xBF
  }

  /** A decoder for sequences of up to three bytes, one unit each. */
  function Decode(s: seq<byte>): Option<seq<Unit>> {
    if s == [] then Some([])
    else if s[0] < 0x80 then Prepend(s[0], Decode(s[1..]))
    else if 0xC2 <= s[0] <= 0xDF && |s| >= 2 && Tail(s[1]) then
      Prepend((s[0] as int - 0xC0) * 0x40 + (s[1] as int - 0x80), Decode(s[2..]))
    else if 0xE0 <= s[0] <= 0xEF && |s| >= 3 && Tail(s[1]) && Tail(s[2]) then
      Prepend((s[0] as int - 0xE0) * 0x1000 + (s[1] as int - 0x80) * 0x40 + (s[2] as int - 0x80), Decode(s[3..]))
    else None
  }

  function Prepend(u: Unit, rest: Option<seq<Unit>>): Option<seq<Unit>> {
    if rest.None? then None else Some([u] + rest.value)
  }

  lemma Digits(u: Unit)
    ensures u == u / 0x40 * 0x40 + u % 0x40
    ensures u / 0x40 == u / 0x1000 * 0x40 + u / 0x40 % 0x40
    ensures u / 0x1000 < 0x10
  {
  }

  /** Nothing is lost: whatever the units, surrogates included, decoding gives them back. */
  lemma {:induction false} RoundTrip(units: seq<Unit>)
    ensures Decode(Encode(units)) == Some(units)
  {
    if units != [] {
      var u, rest := units[0], Encode(units[1..]);
      var s := EncodeUnit(u) + rest;
      RoundTrip(units[1..]);
      Digits(u);
      assert s[|EncodeUnit(u)|..] == rest;
      assert [u] + units[1..] == units;
    }
  }

  lemma Injective(a: seq<Unit>, b: seq<Unit>)
    requires Encode(a) == Encode(b)
    ensures a == b
  {
    RoundTrip(a);
    RoundTrip(b);
  }

  /** The syntax of UTF-8 byte sequences, section 4 of RFC 3629. */
  predicate WellFormed(s: seq<byte>) {
    s == []
    || (s[0] < 0x80 && WellFormed(s[1..]))
    || (|s| >= 2 && 0xC2 <= s[0] <= 0xDF && Tail(s[1]) && WellFormed(s[2..]))
    || (|s| >= 3 && WellFormed3(s[0], s[1]) && Tail(s[1]) && Tail(s[2]) && WellFormed(s[3..]))
    || (|s| >= 4 && WellFormed4(s[0], s[1]) && Tail(s[1]) && Tail(s[2]) && Tail(s[3]) && WellFormed(s[4..]))
  }

  predicate WellFormed3(a: byte, b: byte) {
    (a == 0xE0 && b >= 0xA0) || 0xE1 <= a <= 0xEC || (a == 0xED && b <= 0x9F) || 0xEE <= a <= 0xEF
  }

  predicate WellFormed4(a: byte, b: byte) {
    (a == 0xF0 && b >= 0x90) || 0xF1 <= a <= 0xF3 || (a == 0xF4 && b <= 0x8F)
  }

  predicate Surrogate(u: Unit) {
    0xD800 <= u <= 0xDFFF
  }

  predicate SurrogateFree(units: seq<Unit>) {
    forall i :: 0 <= i < |units| ==> !Surrogate(units[i])
  }

  lemma WellFormedUnit(u: Unit, rest: seq<byte>)
    ensures WellFormed(EncodeUnit(u) + rest) <==> !Surrogate(u) && WellFormed(rest)
  {
    var s := EncodeUnit(u) + rest;
    assert s[|EncodeUnit(u)|..] == rest;
    Digits(u);
  }

  /** The result is well-formed UTF-8 exactly if the descriptor holds no surrogates: a pair is
      not combined into one four-byte sequence. */
  lemma {:induction false} WellFormedIff(units: seq<Unit>)
    ensures WellFormed(Encode(units)) <==> SurrogateFree(units)
  {
    if units != [] {
      WellFormedUnit(units[0], Encode(units[1..]));
      WellFormedIff(units[1..]);
      assert units == [units[0]] + units[1..];
      assert SurrogateFree(units) <==> !Surrogate(units[0]) && SurrogateFree(units[1..]);
    }
  }
}
