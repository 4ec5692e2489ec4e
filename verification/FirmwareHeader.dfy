/**
 The firmware header: the extractor prints three blobs as C arrays, and the user-space
 downloader reads them back out of the text.
 */
module FirmwareHeader {
  import opened Bytes
  import opened Lines

  const ROW := 12
  const FPGA := "FpgaBitstream"
  const EXT_RAM := "ExtRamBlob"
  const MAIN := "MainFirmware"

  // ----- Printing -----

  function Digit(n: nat): char
    requires n < 16
  {
    if n < 10 then '0' + n as char else 'A' + (n - 10) as char
  }

  function Hex(b: byte): string {
    ['0', 'x', Digit(b / 16), Digit(b % 16)]
  }

  /** The bytes of one row, separated by a comma and a space. */
  function RowItems(bytes: seq<byte>): string {
    if bytes == [] then "" else if |bytes| == 1 then Hex(bytes[0])
    else Hex(bytes[0]) + ", " + RowItems(bytes[1..])
  }

  function RowText(bytes: seq<byte>): string {
    "    " + RowItems(bytes) + ",\n"
  }

  function Rows(blob: seq<byte>): string {
    if blob == [] then "" else RowText(blob[..Min(ROW, |blob|)]) + Rows(blob[Min(ROW, |blob|)..])
  }

  function Symbol(name: string): string {
    "kKusb" + name + "Data"
  }

  function ArrayText(name: string, blob: seq<byte>): string {
    "static const uint8_t " + Symbol(name) + "[] = {\n" + Rows(blob) + "};\n\n"
  }

  function Title(): string {
    "// Generated by tools/extract_kusb_" + "firmware.py -- do not edit.\n"
  }

  function Notice(): string {
    "// Contains Keithley/ADLINK " + ("firmware images. Do not " + "redistribute.\n\n")
  }

  function Guard(): string {
    "#ifndef kusb_488b_firmware_data_h\n" + ("#define kusb_488b_firmware_data_h\n\n" + "#include <stdint.h>\n\n")
  }

  function Preamble(): string {
    Title() + (Notice() + Guard())
  }

  function BlobLine(name: string): string {
    "static const KUSBFirmwareBlob kKusb" + name + " = { " + Symbol(name) + ", sizeof(" + Symbol(name) + ") };\n"
  }

  function Header(fpga: seq<byte>, extRam: seq<byte>, main: seq<byte>): string {
    Preamble() + (ArrayText(FPGA, fpga) + (ArrayText(EXT_RAM, extRam) + (ArrayText(MAIN, main) +
    (BlobLine(FPGA) + BlobLine(EXT_RAM) + BlobLine(MAIN) + "\n#endif /* kusb_488b_firmware_data_h */\n"))))
  }

  method EmitArray(name: string, blob: seq<byte>) returns (out: string)
    ensures out == ArrayText(name, blob)
  {
    out := "static const uint8_t " + Symbol(name) + "[] = {\n";
    ghost var start := out;
    var i := 0;
    while i < |blob|
      invariant start + Rows(blob) == out + Rows(if i < |blob| then blob[i..] else [])
      decreases |blob| - i
    {
      var row := blob[i..Min(i + ROW, |blob|)];
      assert blob[i..][..Min(ROW, |blob[i..]|)] == row;
      assert blob[i..][Min(ROW, |blob[i..]|)..] == if i + ROW < |blob| then blob[i + ROW..] else [];
      var line := "    " + RowItems(row) + ",\n";
      assert out + Rows(blob[i..]) == (out + line) + Rows(if i + ROW < |blob| then blob[i + ROW..] else []);
      out := out + line;
      i := i + ROW;
    }
    assert out == start + Rows(blob);
    out := out + "};\n\n";
  }

  // ----- Parsing -----

  predicate PySpace(c: char) {
    Space(c) || 0x1C <= c as int <= 0x1F
  }

  function SkipSpaces(s: string): string {
    if s != "" && PySpace(s[0]) then SkipSpaces(s[1..]) else s
  }

  /** The shortest text that a closing brace and semicolon follow. */
  function UpToClose(s: string): Option<string> {
    if |s| < 2 then None
    else if s[0] == '}' && s[1] == ';' then Some("")
    else
      var rest := UpToClose(s[1..]);
      if rest.None? then None else Some([s[0]] + rest.value)
  }

  /** The pattern, matched at the start of `s`: the body of the array. */
  function MatchAt(s: string, key: string): Option<string> {
    if !(key <= s) then None
    else
      var afterKey := SkipSpaces(s[|key|..]);
      if afterKey == "" || afterKey[0] != '=' then None
      else
        var afterEquals := SkipSpaces(afterKey[1..]);
        if afterEquals == "" || afterEquals[0] != '{' then None else UpToClose(afterEquals[1..])
  }

  /** The leftmost match. */
  function Search(s: string, key: string): Option<string> {
    if MatchAt(s, key).Some? then MatchAt(s, key) else if s == "" then None else Search(s[1..], key)
  }

  function Key(name: string): string {
    Symbol(name) + "[]"
  }

  function HexValue(c: char): Option<nat> {
    if '0' <= c <= '9' then Some(c as int - '0' as int)
    else if 'A' <= c <= 'F' then Some(c as int - 'A' as int + 10)
    else if 'a' <= c <= 'f' then Some(c as int - 'a' as int + 10)
    else None
  }

  predicate HexAt(s: string) {
    |s| >= 4 && s[0] == '0' && s[1] == 'x' && HexValue(s[2]).Some? && HexValue(s[3]).Some?
  }

  function FindHexes(s: string): seq<byte> {
    if s == "" then []
    else if HexAt(s) then [HexValue(s[2]).value * 16 + HexValue(s[3]).value] + FindHexes(s[4..])
    else FindHexes(s[1..])
  }

  function ParseArray(name: string, text: string): Option<seq<byte>> {
    var body := Search(text, Key(name));
    if body.None? then None else Some(FindHexes(body.value))
  }

  // ----- Finding the right array -----

  /** No `k` with a `K` after it starts in this text, whatever follows. */
  predicate Keyless(s: string) {
    forall i :: 0 <= i < |s| && s[i] == 'k' ==> i + 1 < |s| && s[i + 1] != 'K'
  }

  lemma {:induction false} SearchSkips(s: string, rest: string, key: string)
    requires Keyless(s) && |key| >= 2 && key[0] == 'k' && key[1] == 'K'
    ensures Search(s + rest, key) == Search(rest, key)
    decreases |s|
  {
    if s == "" {
      assert s + rest == rest;
    } else {
      assert (s + rest)[0] == s[0] && (|s| > 1 ==> (s + rest)[1] == s[1]);
      assert !(key <= s + rest);
      assert (s + rest)[1..] == s[1..] + rest;
      assert Keyless(s[1..]) by {
        forall i | 0 <= i < |s[1..]| && s[1..][i] == 'k' ensures i + 1 < |s[1..]| && s[1..][i + 1] != 'K' {
          assert s[i + 1] == 'k';
        }
      }
      SearchSkips(s[1..], rest, key);
    }
  }

  lemma KeylessConcat(a: string, b: string)
    requires Keyless(a) && Keyless(b)
    ensures Keyless(a + b)
  {
  }

  /** Names that the printed text can tell apart by their first letter. */
  predicate Name(name: string) {
    name != "" && 'k' !in name
  }

  lemma {:induction false} RowsAlphabet(blob: seq<byte>)
    ensures 'k' !in Rows(blob) && '}' !in Rows(blob)
    decreases |blob|
  {
    if blob != [] {
      RowAlphabet(blob[..Min(ROW, |blob|)]);
      RowsAlphabet(blob[Min(ROW, |blob|)..]);
    }
  }

  lemma {:induction false} RowAlphabet(bytes: seq<byte>)
    ensures 'k' !in RowItems(bytes) && '}' !in RowItems(bytes)
  {
    if |bytes| > 1 {
      RowAlphabet(bytes[1..]);
    }
  }

  lemma {:induction false} ClosesAfter(body: string, rest: string)
    requires '}' !in body
    ensures UpToClose(body + "};" + rest) == Some(body)
    decreases |body|
  {
    var s := body + "};" + rest;
    if body != "" {
      assert s[1..] == body[1..] + "};" + rest;
      ClosesAfter(body[1..], rest);
      assert [body[0]] + body[1..] == body;
    }
  }

  /** The pattern matches where its own array starts, and captures the printed rows. */
  lemma OwnArrayMatches(name: string, rows: string, rest: string)
    requires '}' !in rows
    ensures MatchAt(Key(name) + " = {\n" + rows + "};" + rest, Key(name)) == Some("\n" + rows)
  {
    var key := Key(name);
    var s := key + " = {\n" + rows + "};" + rest;
    var body := "\n" + rows;
    var t := body + "};" + rest;
    assert s[|key|..] == " = {" + t;
    assert SkipSpaces(" = {" + t) == "= {" + t by {
      assert (" = {" + t)[1..] == "= {" + t;
    }
    assert ("= {" + t)[1..] == " {" + t;
    assert SkipSpaces(" {" + t) == "{" + t by {
      assert (" {" + t)[1..] == "{" + t;
    }
    assert ("{" + t)[1..] == t;
    ClosesAfter(body, rest);
  }

  lemma FoundArray(name: string, blob: seq<byte>, rest: string)
    ensures Search(ArrayText(name, blob) + rest, Key(name)) == Some("\n" + Rows(blob))
  {
    var lead := "static const uint8_t ";
    RowsAlphabet(blob);
    var own := Key(name) + " = {\n" + Rows(blob) + "};" + ("\n\n" + rest);
    assert ArrayText(name, blob) + rest == lead + own;
    KeyShape(name);
    assert Keyless(lead);
    SearchSkips(lead, own, Key(name));
    OwnArrayMatches(name, Rows(blob), "\n\n" + rest);
  }

  lemma KeyShape(name: string)
    ensures var key := Key(name); |key| >= 5 + |name| && key[0] == 'k' && key[1] == 'K' && key[5..5 + |name|] == name
  {
  }

  lemma PassedOver(head: string, tail: string, rest: string, key: string)
    requires Keyless(head) && 'k' !in tail && |key| >= 2 && key[0] == 'k' && key[1] == 'K'
    requires !(key <= "k" + tail + rest)
    ensures Search(head + ("k" + tail + rest), key) == Search(rest, key)
  {
    var s := "k" + tail + rest;
    SearchSkips(head, s, key);
    assert s[1..] == tail + rest;
    assert Keyless(tail);
    SearchSkips(tail, rest, key);
  }

  /** Another array's text is passed over: its symbol differs in the first letter of the name. */
  lemma OtherArraySkipped(other: string, blob: seq<byte>, rest: string, name: string)
    requires Name(name) && Name(other) && name[0] != other[0]
    ensures Search(ArrayText(other, blob) + rest, Key(name)) == Search(rest, Key(name))
  {
    var head := "static const uint8_t ";
    var mid := "[] = {\n" + Rows(blob) + "};\n\n";
    var tail := "Kusb" + other + "Data" + mid;
    var s := "k" + tail + rest;
    assert Symbol(other) == "k" + ("Kusb" + other + "Data");
    assert ArrayText(other, blob) + rest == head + s;
    KeyShape(name);
    RowsAlphabet(blob);
    assert s[5] == other[0] && Key(name)[5] == name[0];
    assert Keyless(head);
    assert 'k' !in mid && 'k' !in tail;
    PassedOver(head, tail, rest, Key(name));
  }

  // ----- Reading the bytes -----

  lemma {:induction false} FindSkips(s: string, rest: string)
    requires '0' !in s
    ensures FindHexes(s + rest) == FindHexes(rest)
    decreases |s|
  {
    if s == "" {
      assert s + rest == rest;
    } else {
      assert (s + rest)[0] == s[0] && (s + rest)[1..] == s[1..] + rest;
      FindSkips(s[1..], rest);
    }
  }

  lemma FindOne(b: byte, rest: string)
    ensures FindHexes(Hex(b) + rest) == [b] + FindHexes(rest)
  {
    var s := Hex(b) + rest;
    assert s[4..] == rest;
    assert HexValue(Digit(b / 16)) == Some(b / 16) && HexValue(Digit(b % 16)) == Some(b % 16);
    assert HexAt(s);
  }

  lemma FindFirst(b: byte, more: string)
    ensures FindHexes(Hex(b) + ", " + more) == [b] + FindHexes(more)
  {
    assert Hex(b) + ", " + more == Hex(b) + (", " + more);
    FindOne(b, ", " + more);
    FindSkips(", ", more);
  }

  lemma {:induction false} FindRow(bytes: seq<byte>, rest: string)
    ensures FindHexes(RowItems(bytes) + rest) == bytes + FindHexes(rest)
    decreases |bytes|
  {
    if bytes == [] {
      assert RowItems(bytes) + rest == rest;
    } else if |bytes| == 1 {
      FindOne(bytes[0], rest);
      assert bytes == [bytes[0]];
    } else {
      var b, items := bytes[0], RowItems(bytes[1..]);
      assert RowItems(bytes) == Hex(b) + ", " + items;
      assert (Hex(b) + ", " + items) + rest == Hex(b) + ", " + (items + rest);
      FindFirst(b, items + rest);
      FindRow(bytes[1..], rest);
      assert [b] + (bytes[1..] + FindHexes(rest)) == bytes + FindHexes(rest);
    }
  }

  lemma {:induction false} FindRows(blob: seq<byte>)
    ensures FindHexes(Rows(blob)) == blob
    decreases |blob|
  {
    if blob != [] {
      var row, more := blob[..Min(ROW, |blob|)], blob[Min(ROW, |blob|)..];
      assert Rows(blob) == "    " + (RowItems(row) + (",\n" + Rows(more)));
      FindSkips("    ", RowItems(row) + (",\n" + Rows(more)));
      FindRow(row, ",\n" + Rows(more));
      FindSkips(",\n", Rows(more));
      FindRows(more);
      assert row + more == blob;
    }
  }

  lemma ParseFound(name: string, blob: seq<byte>, text: string)
    requires Search(text, Key(name)) == Some("\n" + Rows(blob))
    ensures ParseArray(name, text) == Some(blob)
  {
    FindSkips("\n", Rows(blob));
    FindRows(blob);
  }

  lemma TitleIsKeyless()
    ensures Keyless(Title())
  {
    KeylessConcat("// Generated by tools/extract_kusb_", "firmware.py -- do not edit.\n");
  }

  lemma NoticeIsKeyless()
    ensures Keyless(Notice())
  {
    KeylessConcat("firmware images. Do not ", "redistribute.\n\n");
    KeylessConcat("// Contains Keithley/ADLINK ", "firmware images. Do not " + "redistribute.\n\n");
  }

  lemma GuardIsKeyless()
    ensures Keyless(Guard())
  {
    KeylessConcat("#define kusb_488b_firmware_data_h\n\n", "#include <stdint.h>\n\n");
    KeylessConcat("#ifndef kusb_488b_firmware_data_h\n",
                  "#define kusb_488b_firmware_data_h\n\n" + "#include <stdint.h>\n\n");
  }

  lemma PreambleIsKeyless()
    ensures Keyless(Preamble())
  {
    TitleIsKeyless();
    NoticeIsKeyless();
    GuardIsKeyless();
    KeylessConcat(Notice(), Guard());
    KeylessConcat(Title(), Notice() + Guard());
  }

  lemma NamesDiffer()
    ensures Name(FPGA) && Name(EXT_RAM) && Name(MAIN)
    ensures FPGA[0] != EXT_RAM[0] && FPGA[0] != MAIN[0] && EXT_RAM[0] != MAIN[0]
  {
  }

  /** Printer and parser undo each other, for any three blobs, empty ones and partial last
      rows included. */
  lemma ParseHeader(fpga: seq<byte>, extRam: seq<byte>, main: seq<byte>)
    ensures var text := Header(fpga, extRam, main);
            && ParseArray(FPGA, text) == Some(fpga)
            && ParseArray(EXT_RAM, text) == Some(extRam)
            && ParseArray(MAIN, text) == Some(main)
  {
    var end := BlobLine(FPGA) + BlobLine(EXT_RAM) + BlobLine(MAIN) + "\n#endif /* kusb_488b_firmware_data_h */\n";
    ParseThree(Preamble(), FPGA, EXT_RAM, MAIN, fpga, extRam, main, end) by {
      PreambleIsKeyless();
      NamesDiffer();
    }
  }

  lemma ParseThree(pre: string, a: string, b: string, c: string, x: seq<byte>, y: seq<byte>, z: seq<byte>, end: string)
    requires Keyless(pre) && Name(a) && Name(b) && Name(c) && a[0] != b[0] && a[0] != c[0] && b[0] != c[0]
    ensures var text := pre + (ArrayText(a, x) + (ArrayText(b, y) + (ArrayText(c, z) + end)));
            ParseArray(a, text) == Some(x) && ParseArray(b, text) == Some(y) && ParseArray(c, text) == Some(z)
  {
    var t3 := ArrayText(c, z) + end;
    var t2 := ArrayText(b, y) + t3;
    var t1 := ArrayText(a, x) + t2;
    KeyShape(a);
    KeyShape(b);
    KeyShape(c);
    SearchSkips(pre, t1, Key(a));
    FoundArray(a, x, t2);
    ParseFound(a, x, pre + t1);
    SearchSkips(pre, t1, Key(b));
    OtherArraySkipped(a, x, t2, b);
    FoundArray(b, y, t3);
    ParseFound(b, y, pre + t1);
    SearchSkips(pre, t1, Key(c));
    OtherArraySkipped(a, x, t2, c);
    OtherArraySkipped(b, y, t3, c);
    FoundArray(c, z, end);
    ParseFound(c, z, pre + t1);
  }
}
