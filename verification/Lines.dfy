/** Splitting a text at a separator, joining pieces, trimming, and substring search. */
module Lines {
  import opened Bytes

  /** The first piece grows by the character in front of it. */
  function Grow(x: char, parts: seq<string>): seq<string>
    requires parts != []
  {
    [[x] + parts[0]] + parts[1..]
  }

  function Split(s: string, c: char): (parts: seq<string>)
    ensures |parts| >= 1
    ensures forall p :: p in parts ==> c !in p
  {
    if s == "" then [""]
    else
      var rest := Split(s[1..], c);
      if s[0] == c then [""] + rest else Grow(s[0], rest)
  }

  function Join(parts: seq<string>, c: char): string {
    if parts == [] then "" else if |parts| == 1 then parts[0] else parts[0] + [c] + Join(parts[1..], c)
  }

  lemma {:induction false} JoinSplit(s: string, c: char)
    ensures Join(Split(s, c), c) == s
  {
    if s != "" {
      JoinSplit(s[1..], c);
      var rest := Split(s[1..], c);
      var parts := Split(s, c);
      if s[0] == c {
        assert parts[1..] == rest;
      } else {
        assert parts[1..] == rest[1..];
      }
    }
  }

  lemma {:induction false} SplitOne(s: string, c: char)
    requires c !in s
    ensures Split(s, c) == [s]
  {
    if s != "" {
      SplitOne(s[1..], c);
      assert [s[0]] + s[1..] == s;
    }
  }

  lemma {:induction false} SplitChars(s: string, c: char, x: char)
    requires x !in s
    ensures forall p :: p in Split(s, c) ==> x !in p
  {
    if s != "" {
      SplitChars(s[1..], c, x);
    }
  }

  lemma GrowConcat(x: char, p: seq<string>, q: seq<string>)
    requires p != []
    ensures Grow(x, p + q) == Grow(x, p) + q
  {
  }

  /** A separator between two texts separates their pieces. */
  lemma {:induction false} SplitConcat(a: string, b: string, c: char)
    ensures Split(a + [c] + b, c) == Split(a, c) + Split(b, c)
    decreases |a|
  {
    var s := a + [c] + b;
    if a == "" {
      assert s[0] == c && s[1..] == b;
    } else {
      assert s[0] == a[0] && s[1..] == a[1..] + [c] + b;
      SplitConcat(a[1..], b, c);
      var p, q := Split(a[1..], c), Split(b, c);
      if a[0] == c {
        Associative([""], p, q);
      } else {
        GrowConcat(a[0], p, q);
      }
    }
  }

  lemma {:induction false} SplitJoin(parts: seq<string>, c: char)
    requires parts != [] && forall p :: p in parts ==> c !in p
    ensures Split(Join(parts, c), c) == parts
    decreases |parts|
  {
    SplitOne(parts[0], c);
    if |parts| > 1 {
      assert Join(parts, c) == parts[0] + [c] + Join(parts[1..], c);
      SplitConcat(parts[0], Join(parts[1..], c), c);
      SplitJoin(parts[1..], c);
      assert parts == [parts[0]] + parts[1..];
    } else {
      assert parts == [parts[0]];
    }
  }

  lemma {:induction false} JoinSnoc(parts: seq<string>, p: string, c: char)
    requires parts != []
    ensures Join(parts + [p], c) == Join(parts, c) + [c] + p
    decreases |parts|
  {
    assert (parts + [p])[1..] == parts[1..] + [p];
    if |parts| > 1 {
      JoinSnoc(parts[1..], p, c);
      assert parts[0] + [c] + (Join(parts[1..], c) + [c] + p) == (parts[0] + [c] + Join(parts[1..], c)) + [c] + p;
    } else {
      assert parts[1..] + [p] == [p];
    }
  }

  // ----- Leaving out some of the pieces -----

  function Filter(parts: seq<string>, keep: string -> bool): (f: seq<string>)
    ensures forall p :: p in f <==> p in parts && keep(p)
  {
    if parts == [] then []
    else (if keep(parts[0]) then [parts[0]] else []) + Filter(parts[1..], keep)
  }

  lemma {:induction false} FilterAll(parts: seq<string>, keep: string -> bool)
    requires forall p :: p in parts ==> keep(p)
    ensures Filter(parts, keep) == parts
  {
    if parts != [] {
      FilterAll(parts[1..], keep);
      assert parts == [parts[0]] + parts[1..];
    }
  }

  lemma FilterAllButFirst(first: string, rest: seq<string>, keep: string -> bool)
    requires !keep(first) && forall p :: p in rest ==> keep(p)
    ensures Filter([first] + rest, keep) == rest
  {
    FilterAll(rest, keep);
    assert ([first] + rest)[1..] == rest;
    assert [] + rest == rest;
  }

  function Size(parts: seq<string>): nat {
    if parts == [] then 0 else |parts[0]| + 1 + Size(parts[1..])
  }

  lemma {:induction false} JoinSize(parts: seq<string>, c: char)
    ensures |Join(parts, c)| == if parts == [] then 0 else Size(parts) - 1
  {
    if |parts| > 1 {
      JoinSize(parts[1..], c);
    } else if |parts| == 1 {
      assert Size(parts[1..]) == 0;
    }
  }

  lemma {:induction false} FilterShrinks(parts: seq<string>, keep: string -> bool)
    ensures Size(Filter(parts, keep)) <= Size(parts)
    ensures (exists p :: p in parts && !keep(p)) ==> Size(Filter(parts, keep)) < Size(parts)
  {
    if parts != [] {
      FilterShrinks(parts[1..], keep);
      var f := Filter(parts[1..], keep);
      if keep(parts[0]) {
        assert ([parts[0]] + f)[1..] == f;
        if p :| p in parts && !keep(p) {
          assert p in parts[1..];
        }
      } else {
        assert [] + f == f;
      }
    }
  }

  // ----- Trimming -----

  /** Unicode's separators, with tab, the line ends and NEL. */
  predicate Space(c: char) {
    var u := c as int;
    || 0x09 <= u <= 0x0D || u == 0x20 || u == 0x85 || u == 0xA0 || u == 0x1680
    || 0x2000 <= u <= 0x200A || u == 0x2028 || u == 0x2029 || u == 0x202F || u == 0x205F || u == 0x3000
  }

  function TrimStart(s: string): (t: string)
    ensures |t| <= |s| && (t == s <==> s == "" || !Space(s[0]))
    ensures t != "" ==> !Space(t[0]) && s != "" && t[|t| - 1] == s[|s| - 1]
  {
    if s != "" && Space(s[0]) then TrimStart(s[1..]) else s
  }

  function TrimEnd(s: string): (t: string)
    ensures |t| <= |s| && (t == s <==> s == "" || !Space(s[|s| - 1]))
    ensures t != "" ==> !Space(t[|t| - 1]) && s != "" && t[0] == s[0]
  {
    if s != "" && Space(s[|s| - 1]) then TrimEnd(s[..|s| - 1]) else s
  }

  function Trim(s: string): (t: string)
    ensures |t| <= |s| && (t == s <==> s == "" || (!Space(s[0]) && !Space(s[|s| - 1])))
    ensures t != "" ==> !Space(t[0]) && !Space(t[|t| - 1])
  {
    TrimEnd(TrimStart(s))
  }

  /** Exactly the spaces at both ends go, and none from within. */
  lemma {:induction false} TrimExact(before: string, text: string, after: string)
    requires (forall c :: c in before ==> Space(c)) && forall c :: c in after ==> Space(c)
    requires text != "" && !Space(text[0]) && !Space(text[|text| - 1])
    ensures Trim(before + text + after) == text
    decreases |before| + |after|
  {
    var s := before + text + after;
    if before != "" {
      assert before[0] in before && s[0] == before[0] && s[1..] == before[1..] + text + after;
      TrimExact(before[1..], text, after);
    } else {
      assert s == text + after && TrimStart(s) == s;
      TrimEndExact(text, after);
    }
  }

  lemma {:induction false} TrimEndExact(text: string, after: string)
    requires (forall c :: c in after ==> Space(c)) && text != "" && !Space(text[|text| - 1])
    ensures TrimEnd(text + after) == text
    decreases |after|
  {
    var s := text + after;
    if after == "" {
      assert s == text;
    } else {
      var n := |after| - 1;
      assert after[n] in after && s[|s| - 1] == after[n] && s[..|s| - 1] == text + after[..n];
      TrimEndExact(text, after[..n]);
    }
  }

  // ----- Substrings -----

  predicate Contains(s: string, m: string) {
    m <= s || (s != "" && Contains(s[1..], m))
  }

  predicate AnyContains(lines: seq<string>, m: string) {
    exists k :: 0 <= k < |lines| && Contains(lines[k], m)
  }

  lemma {:induction false} FirstLine(s: string, c: char)
    ensures Split(s, c)[0] <= s && (|Split(s, c)[0]| == |s| || s[|Split(s, c)[0]|] == c)
  {
    if s != "" {
      FirstLine(s[1..], c);
    }
  }

  /** A text contains a word without separators exactly if one of its pieces does. */
  lemma {:induction false} ContainsLine(s: string, m: string, c: char)
    requires m != "" && c !in m
    ensures Contains(s, m) <==> AnyContains(Split(s, c), m)
  {
    var lines := Split(s, c);
    if s == "" {
      assert !Contains("", m);
    } else {
      var rest := Split(s[1..], c);
      ContainsLine(s[1..], m, c);
      if s[0] == c {
        assert m[0] != c && !(m <= s);
        assert !Contains("", m);
        ShiftLines("", rest, m);
      } else {
        FirstLine(s, c);
        assert m <= s <==> m <= lines[0] by {
          if m <= s {
            assert forall i :: 0 <= i < |m| ==> s[i] == m[i] && m[i] in m;
            assert |m| <= |lines[0]|;
          }
        }
        assert lines[0][1..] == rest[0];
        ReplaceFirst(lines[0], rest, m);
      }
    }
  }

  lemma ShiftLines(first: string, rest: seq<string>, m: string)
    ensures AnyContains([first] + rest, m) <==> Contains(first, m) || AnyContains(rest, m)
  {
    var all := [first] + rest;
    assert all[0] == first;
    if k :| 0 <= k < |rest| && Contains(rest[k], m) {
      assert all[k + 1] == rest[k];
    }
    if k :| 0 <= k < |all| && Contains(all[k], m) {
      assert k > 0 ==> all[k] == rest[k - 1];
    }
  }

  lemma ReplaceFirst(first: string, rest: seq<string>, m: string)
    requires rest != [] && first != "" && first[1..] == rest[0]
    ensures AnyContains([first] + rest[1..], m) <==> m <= first || AnyContains(rest, m)
  {
    ShiftLines(first, rest[1..], m);
    ShiftLines(rest[0], rest[1..], m);
    assert [rest[0]] + rest[1..] == rest;
  }

  lemma {:induction false} ContainsInMiddle(a: string, m: string, b: string)
    ensures Contains(a + m + b, m)
    decreases |a|
  {
    if a == "" {
      assert a + m + b == m + b;
    } else {
      assert (a + m + b)[1..] == a[1..] + m + b;
      ContainsInMiddle(a[1..], m, b);
    }
  }
}
