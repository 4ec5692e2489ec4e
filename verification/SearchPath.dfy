/**
 Making the library findable and undoing it again: the session's library search path, and
 the block in the user's shell startup files.
 */
module SearchPath {
  import opened Bytes
  import opened Lines

  const BUILTIN_DEFAULT := "/usr/local/lib:/lib:/usr/lib"

  // ----- The session variable -----

  function Current(v: Option<string>): string {
    if v.None? then "" else Trim(v.value)
  }

  function Entries(v: Option<string>): seq<string> {
    Split(Base(v), ':')
  }

  /** Put the directory in front, unless it is an entry already. */
  function Extend(v: Option<string>, dir: string): Option<string> {
    if dir in Entries(v) then v else Some(Join([dir] + Entries(v), ':'))
  }

  function Other(dir: string): string -> bool {
    e => e != dir
  }

  /** Drop the directory's entries; the built-in default alone, or nothing, means unset. */
  function Remove(v: Option<string>, dir: string): Option<string> {
    if Current(v) == "" then v
    else
      var entries := Filter(Split(Current(v), ':'), Other(dir));
      if entries == [] || Join(entries, ':') == BUILTIN_DEFAULT then None else Some(Join(entries, ':'))
  }

  /** A path as the app uses them: no colon, and nothing for the trimming to take off. */
  predicate Plain(dir: string) {
    ':' !in dir && (dir == "" || !Space(dir[0]))
  }

  lemma InFront(base: string, dir: string)
    requires Plain(dir) && base != "" && Trim(base) == base
    ensures var value := Join([dir] + Split(base, ':'), ':');
            value == dir + ":" + base && Trim(value) == value && Split(value, ':') == [dir] + Split(base, ':')
  {
    JoinSplit(base, ':');
    var value := Join([dir] + Split(base, ':'), ':');
    assert ([dir] + Split(base, ':'))[1..] == Split(base, ':');
    assert value == dir + ":" + base;
    assert value[|value| - 1] == base[|base| - 1];
    assert value[0] == (if dir == "" then ':' else dir[0]);
    SplitConcat(dir, base, ':');
    SplitOne(dir, ':');
  }

  function Base(v: Option<string>): (base: string)
    ensures base != "" && Trim(base) == base
  {
    if Current(v) == "" then BUILTIN_DEFAULT else Current(v)
  }

  /** What stands in the variable after it was extended is read back as it was written. */
  lemma Extended(v: Option<string>, dir: string)
    requires Plain(dir) && dir !in Entries(v)
    ensures Current(Extend(v, dir)) == Extend(v, dir).value == dir + ":" + Base(v)
    ensures Entries(Extend(v, dir)) == [dir] + Entries(v)
    ensures Join(Entries(v), ':') == Base(v)
  {
    JoinSplit(Base(v), ':');
    InFront(Base(v), dir);
  }

  /** Extending twice is extending once. */
  lemma ExtendTwice(v: Option<string>, dir: string)
    requires Plain(dir)
    ensures Extend(Extend(v, dir), dir) == Extend(v, dir)
  {
    if dir !in Entries(v) {
      Extended(v, dir);
      assert dir == ([dir] + Entries(v))[0];
    }
  }

  /** The values that installing and uninstalling leave as they were: an unset variable, a
      blank one whose default entries include the directory, and any trimmed value without
      the directory other than the spelled-out default. */
  predicate Restorable(v: Option<string>, dir: string) {
    || v.None?
    || (Current(v) == "" && dir in Entries(v))
    || (Current(v) == v.value && v.value != "" && v.value != BUILTIN_DEFAULT && dir !in Entries(v))
  }

  lemma RemoveWhenNew(v: Option<string>, dir: string)
    requires Plain(dir) && dir !in Entries(v)
    ensures var base := Join(Entries(v), ':');
            Remove(Extend(v, dir), dir) == if base == BUILTIN_DEFAULT then None else Some(base)
  {
    Extended(v, dir);
    FilterAllButFirst(dir, Entries(v), Other(dir));
    assert Split(Current(Extend(v, dir)), ':') == [dir] + Entries(v);
  }

  lemma RemoveWhenPresent(v: Option<string>, dir: string)
    requires dir in Entries(v) && Current(v) != ""
    ensures Remove(v, dir) != v
  {
    var kept := Filter(Entries(v), Other(dir));
    JoinSplit(Current(v), ':');
    FilterShrinks(Entries(v), Other(dir));
    assert !Other(dir)(dir);
    JoinSize(Entries(v), ':');
    JoinSize(kept, ':');
    assert |Join(kept, ':')| < |Current(v)| || kept == [];
  }

  lemma RemoveAfterExtend(v: Option<string>, dir: string)
    requires Plain(dir)
    ensures Remove(Extend(v, dir), dir) == v <==> Restorable(v, dir)
  {
    if dir !in Entries(v) {
      RemoveWhenNew(v, dir);
      Extended(v, dir);
    } else if Current(v) != "" {
      RemoveWhenPresent(v, dir);
    }
  }

  /** A directory with a character the default lacks is not one of the default's entries. */
  lemma Foreign(v: Option<string>, dir: string)
    requires Current(v) == "" || v == Some(BUILTIN_DEFAULT)
    requires exists c :: c in dir && c !in BUILTIN_DEFAULT
    ensures Base(v) == BUILTIN_DEFAULT && dir !in Entries(v)
  {
    var c :| c in dir && c !in BUILTIN_DEFAULT;
    assert Base(None) == BUILTIN_DEFAULT;
    SplitChars(BUILTIN_DEFAULT, ':', c);
  }

  /** Two values that do not come back: a blank one and the default spelled out end up unset. */
  lemma BecomesUnset(v: Option<string>, dir: string)
    requires Plain(dir) && exists c :: c in dir && c !in BUILTIN_DEFAULT
    requires v == Some("") || v == Some(BUILTIN_DEFAULT)
    ensures Remove(Extend(v, dir), dir) == None
  {
    Foreign(v, dir);
    RemoveWhenNew(v, dir);
    Extended(v, dir);
  }

  /** A directory the user had put there alone is taken out with the app's own. */
  lemma UserEntryIsLost(dir: string)
    requires Plain(dir) && dir != "" && Trim(dir) == dir
    ensures Extend(Some(dir), dir) == Some(dir) && Remove(Some(dir), dir) == None
  {
    SplitOne(dir, ':');
    assert Current(Some(dir)) == dir && Split(dir, ':') == [dir];
    assert !Other(dir)(dir) && [dir][1..] == [];
    assert Filter([dir], Other(dir)) == [];
  }

  // ----- The shell startup files -----

  /** The lines that mark a block. */
  datatype Markers = Markers(begin: string, end: string) {
    predicate Sound() {
      begin != "" && end != "" && '\n' !in begin && '\n' !in end && !Contains(end, begin)
    }
  }

  const OPEN_GPIB := Markers("# >>> Open GPIB >>>", "# <<< Open GPIB <<<")

  lemma OpenGpibMarkersAreSound()
    ensures OPEN_GPIB.Sound()
  {
    assert OPEN_GPIB.end[2] != OPEN_GPIB.begin[2];
    assert |OPEN_GPIB.end| == |OPEN_GPIB.begin|;
    TooShort(OPEN_GPIB.end[1..], OPEN_GPIB.begin);
  }

  lemma {:induction false} TooShort(s: string, m: string)
    requires |s| < |m|
    ensures !Contains(s, m)
    decreases |s|
  {
    if s != "" {
      TooShort(s[1..], m);
    }
  }

  function Block(m: Markers, sourceLine: string): string {
    m.begin + "\n" + sourceLine + "\n" + m.end
  }

  /** What goes between the user's text and the block, apart from the blank line. */
  function Separator(existing: string): string {
    if existing == "" || existing[|existing| - 1] == '\n' then "" else "\n"
  }

  function Install(m: Markers, existing: string, sourceLine: string): string {
    if Contains(existing, m.begin) then existing
    else existing + Separator(existing) + "\n" + Block(m, sourceLine) + "\n"
  }

  /** The lines outside the marked blocks, markers excluded. */
  function Outside(m: Markers, lines: seq<string>, inBlock: bool): seq<string> {
    if lines == [] then []
    else if Contains(lines[0], m.begin) then Outside(m, lines[1..], true)
    else if Contains(lines[0], m.end) then Outside(m, lines[1..], false)
    else (if inBlock then [] else [lines[0]]) + Outside(m, lines[1..], inBlock)
  }

  function Uninstalled(m: Markers, text: string): string {
    if Contains(text, m.begin) then Join(Outside(m, Split(text, '\n'), false), '\n') else text
  }

  method RemoveShellSnippet(m: Markers, text: string) returns (result: string)
    ensures result == Uninstalled(m, text)
  {
    if !Contains(text, m.begin) {
      return text;
    }
    var lines := Split(text, '\n');
    var kept: seq<string> := [];
    var inBlock := false;
    var i := 0;
    while i < |lines|
      invariant i <= |lines| && Outside(m, lines, false) == kept + Outside(m, lines[i..], inBlock)
    {
      assert lines[i..][1..] == lines[i + 1..];
      if Contains(lines[i], m.begin) {
        inBlock := true;
      } else if Contains(lines[i], m.end) {
        inBlock := false;
      } else if !inBlock {
        kept := kept + [lines[i]];
      }
      i := i + 1;
    }
    assert lines[i..] == [] && kept + [] == kept;
    result := Join(kept, '\n');
  }

  lemma {:induction false} OutsideHasNoMarkers(m: Markers, lines: seq<string>, inBlock: bool)
    ensures forall l :: l in Outside(m, lines, inBlock) ==> l in lines && !Contains(l, m.begin) && !Contains(l, m.end)
  {
    if lines != [] {
      OutsideHasNoMarkers(m, lines[1..], true);
      OutsideHasNoMarkers(m, lines[1..], false);
    }
  }

  /** Whatever the file looked like, no begin marker is left, and no end marker either if
      there was anything to remove. */
  lemma UninstalledIsMarkerFree(m: Markers, text: string)
    requires m.Sound()
    ensures !Contains(Uninstalled(m, text), m.begin)
    ensures Contains(text, m.begin) ==> !Contains(Uninstalled(m, text), m.end)
  {
    if Contains(text, m.begin) {
      var lines := Split(text, '\n');
      var kept := Outside(m, lines, false);
      OutsideHasNoMarkers(m, lines, false);
      if kept != [] {
        SplitJoin(kept, '\n');
      }
      ContainsLine(Uninstalled(m, text), m.begin, '\n');
      ContainsLine(Uninstalled(m, text), m.end, '\n');
    }
  }

  function Ordinary(m: Markers): string -> bool {
    line => !Contains(line, m.end)
  }

  lemma {:induction false} OutsideOfUserText(m: Markers, lines: seq<string>, more: seq<string>)
    requires forall l :: l in lines ==> !Contains(l, m.begin)
    ensures Outside(m, lines + more, false) == Filter(lines, Ordinary(m)) + Outside(m, more, false)
    decreases |lines|
  {
    if lines == [] {
      assert lines + more == more;
    } else {
      var first := if Contains(lines[0], m.end) then [] else [lines[0]];
      var kept, rest := Filter(lines[1..], Ordinary(m)), lines[1..] + more;
      assert lines + more == [lines[0]] + rest && lines[0] in lines;
      OutsideOfUserText(m, lines[1..], more);
      OutsideOne(m, rest, lines[0], false);
      Associative(first, kept, Outside(m, more, false));
    }
  }

  lemma OutsideOne(m: Markers, rest: seq<string>, line: string, inBlock: bool)
    ensures Outside(m, [line] + rest, inBlock) ==
      if Contains(line, m.begin) then Outside(m, rest, true)
      else if Contains(line, m.end) then Outside(m, rest, false)
      else (if inBlock then [] else [line]) + Outside(m, rest, inBlock)
    ensures rest == [] ==> [line] + rest == [line]
    ensures |rest| == 1 ==> [line] + rest == [line, rest[0]]
    ensures |rest| == 2 ==> [line] + rest == [line, rest[0], rest[1]]
    ensures |rest| == 3 ==> [line] + rest == [line, rest[0], rest[1], rest[2]]
  {
    assert ([line] + rest)[1..] == rest;
  }

  lemma OutsideOfBlock(m: Markers, sourceLine: string)
    requires m.Sound()
    ensures Outside(m, [m.begin, sourceLine, m.end, ""], false) == [""]
  {
    assert Contains(m.begin, m.begin) && Contains(m.end, m.end);
    assert !Contains("", m.begin) && !Contains("", m.end);
    OutsideOne(m, [], "", false);
    OutsideOne(m, [""], m.end, true);
    OutsideOne(m, [""], m.end, false);
    OutsideOne(m, [m.end, ""], sourceLine, true);
    OutsideOne(m, [sourceLine, m.end, ""], m.begin, false);
    assert Outside(m, [""], false) == [""];
    assert Outside(m, [sourceLine, m.end, ""], true) == [""];
  }

  lemma UninstalledLines(m: Markers, existing: string, sourceLine: string)
    requires m.Sound() && !Contains(existing, m.begin) && '\n' !in sourceLine
    ensures var lines := Split(existing + Separator(existing), '\n');
            Uninstalled(m, Install(m, existing, sourceLine)) == Join(Filter(lines, Ordinary(m)) + [""], '\n')
  {
    var lines := Split(existing + Separator(existing), '\n');
    FourLines(existing + Separator(existing), m.begin, sourceLine, m.end);
    UserLines(existing, m.begin);
    forall l | l in lines
      ensures !Contains(l, m.begin)
    {
      var k :| 0 <= k < |lines| && lines[k] == l;
    }
    OutsideOfUserText(m, lines, [m.begin, sourceLine, m.end, ""]);
    OutsideOfBlock(m, sourceLine);
  }

  lemma FilteredText(lines: seq<string>, m: Markers)
    requires lines != []
    ensures Join(Filter(lines, Ordinary(m)) + [""], '\n') == Join(lines, '\n') + "\n" <==> !AnyContains(lines, m.end)
  {
    var kept := Filter(lines, Ordinary(m));
    if k :| 0 <= k < |lines| && Contains(lines[k], m.end) {
      assert lines[k] in lines && !Ordinary(m)(lines[k]);
      FilterShrinks(lines, Ordinary(m));
      JoinSize(lines, '\n');
      JoinSize(kept, '\n');
      if kept == [] {
        assert kept + [""] == [""];
      } else {
        JoinSnoc(kept, "", '\n');
      }
    } else {
      FilterAll(lines, Ordinary(m));
      JoinSnoc(lines, "", '\n');
    }
  }

  /** Uninstalling what was installed gives the file back with the separator and one blank
      line added, exactly if the user's own text holds no end marker. */
  lemma UninstallAfterInstall(m: Markers, existing: string, sourceLine: string)
    requires m.Sound() && !Contains(existing, m.begin) && '\n' !in sourceLine
    ensures Uninstalled(m, Install(m, existing, sourceLine)) == existing + Separator(existing) + "\n" <==>
            !Contains(existing, m.end)
  {
    var lines := Split(existing + Separator(existing), '\n');
    UninstalledLines(m, existing, sourceLine);
    JoinSplit(existing + Separator(existing), '\n');
    FilteredText(lines, m);
    UserLines(existing, m.end);
  }

  lemma OnlyEndMarker(m: Markers)
    requires m.Sound()
    ensures Separator(m.end) == "\n" && Split(m.end + "\n", '\n') == [m.end, ""]
    ensures Filter([m.end, ""], Ordinary(m)) == [""]
  {
    SplitConcat(m.end, "", '\n');
    SplitOne(m.end, '\n');
    assert m.end + "\n" == m.end + ['\n'] + "";
    assert Contains(m.end, m.end) && !Contains("", m.end);
    assert [m.end, ""][1..] == [""] && Filter([""], Ordinary(m)) == [""];
  }

  /** An end marker that stood in the user's text by itself is taken along. */
  lemma StrayEndMarkerIsLost(m: Markers, sourceLine: string)
    requires m.Sound() && '\n' !in sourceLine
    ensures !Contains(m.end, m.begin) && Uninstalled(m, Install(m, m.end, sourceLine)) == "\n"
  {
    UninstalledLines(m, m.end, sourceLine);
    OnlyEndMarker(m);
    JoinSnoc([""], "", '\n');
  }

  /** A second install finds the block and leaves the file alone. */
  lemma InstallTwice(m: Markers, existing: string, sourceLine: string)
    requires m.Sound() && '\n' !in sourceLine
    ensures Install(m, Install(m, existing, sourceLine), sourceLine) == Install(m, existing, sourceLine)
  {
    FourLines(existing + Separator(existing), m.begin, sourceLine, m.end);
  }

  /** What installing writes, line by line: the user's text as it was, ended and set off by a
      blank line, and the source line between the two markers. */
  lemma InstalledLines(m: Markers, existing: string, sourceLine: string)
    requires m.Sound() && '\n' !in sourceLine && !Contains(existing, m.begin)
    ensures existing <= Install(m, existing, sourceLine)
    ensures Split(Install(m, existing, sourceLine), '\n') ==
              Split(existing, '\n') + (if existing == "" || existing[|existing| - 1] == '\n' then [] else [""])
              + [m.begin, sourceLine, m.end, ""]
  {
    InstallKeeps(m, existing, sourceLine);
    SeparatedLines(existing);
    FourLines(existing + Separator(existing), m.begin, sourceLine, m.end);
  }

  lemma InstallKeeps(m: Markers, existing: string, sourceLine: string)
    ensures existing <= Install(m, existing, sourceLine)
  {
    var sep, block := Separator(existing), Block(m, sourceLine);
    assert existing + sep + "\n" + block + "\n" == existing + (sep + "\n" + block + "\n");
  }

  lemma SeparatedLines(existing: string)
    ensures Split(existing + Separator(existing), '\n') ==
              Split(existing, '\n') + if existing == "" || existing[|existing| - 1] == '\n' then [] else [""]
  {
    if Separator(existing) == "" {
      assert existing + Separator(existing) == existing;
      assert Split(existing, '\n') + [] == Split(existing, '\n');
    } else {
      assert existing + Separator(existing) == existing + ['\n'] + "";
      SplitConcat(existing, "", '\n');
      SplitOne("", '\n');
    }
  }

  lemma FourLines(base: string, a: string, b: string, c: string)
    requires '\n' !in a && '\n' !in b && '\n' !in c
    ensures var text := base + "\n" + (a + "\n" + b + "\n" + c) + "\n";
            Contains(text, a) && Split(text, '\n') == Split(base, '\n') + [a, b, c, ""]
  {
    var text := base + "\n" + (a + "\n" + b + "\n" + c) + "\n";
    var t3 := c + "\n" + "";
    var t2 := b + "\n" + t3;
    var t1 := a + "\n" + t2;
    assert text == base + "\n" + t1;
    assert text == (base + "\n") + a + ("\n" + t2);
    ContainsInMiddle(base + "\n", a, "\n" + t2);
    SplitConcat(base, t1, '\n');
    SplitConcat(a, t2, '\n');
    SplitConcat(b, t3, '\n');
    SplitConcat(c, "", '\n');
    SplitOne(a, '\n');
    SplitOne(b, '\n');
    SplitOne(c, '\n');
  }

  /** The separator brings no marker into the user's lines and takes none away. */
  lemma UserLines(existing: string, m: string)
    requires m != "" && '\n' !in m
    ensures Contains(existing, m) <==> AnyContains(Split(existing + Separator(existing), '\n'), m)
  {
    var own := Split(existing, '\n');
    ContainsLine(existing, m, '\n');
    if Separator(existing) == "" {
      assert existing + Separator(existing) == existing;
    } else {
      assert existing + Separator(existing) == existing + ['\n'] + "";
      SplitConcat(existing, "", '\n');
      assert !Contains("", m);
      if k :| 0 <= k < |own| && Contains(own[k], m) {
        assert (own + [""])[k] == own[k];
      }
    }
  }
}
