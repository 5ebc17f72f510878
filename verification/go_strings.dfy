/** The handful of operations of Go's `strings` package that the declaration
    parser relies on, over strings as sequences of code points. */
module GoStrings {

  /** Go's `unicode.IsSpace`: the ASCII white space characters, NEL, NBSP and
      the code points with the Unicode White_Space property. */
  predicate IsSpace(c: char) {
    var n := c as int;
    || n == 0x20 || 0x09 <= n <= 0x0D || n == 0x85 || n == 0xA0 || n == 0x1680
    || 0x2000 <= n <= 0x200A || n == 0x2028 || n == 0x2029 || n == 0x202F
    || n == 0x205F || n == 0x3000
  }

  predicate AllSpace(s: string) {
    forall i :: 0 <= i < |s| ==> IsSpace(s[i])
  }

  /** A string that TrimSpace leaves alone: empty, or no white space at either end. */
  predicate Trimmed(s: string) {
    s == [] || (!IsSpace(s[0]) && !IsSpace(s[|s| - 1]))
  }

  predicate HasPrefix(s: string, prefix: string) {
    |prefix| <= |s| && s[..|prefix|] == prefix
  }

  /** `sep` occurs in `s` starting at index `i`. */
  predicate OccursAt(s: string, sep: string, i: int) {
    0 <= i && i + |sep| <= |s| && s[i..i + |sep|] == sep
  }

  predicate Contains(s: string, sep: string) {
    exists i :: 0 <= i <= |s| - |sep| && OccursAt(s, sep, i)
  }

  /** Go's `strings.TrimSpace`: white space removed from both ends. */
  function TrimSpace(s: string): (r: string)
    ensures |r| <= |s|
    ensures Trimmed(r)
    decreases |s|
  {
    if |s| > 0 && IsSpace(s[0]) then TrimSpace(s[1..])
    else if |s| > 0 && IsSpace(s[|s| - 1]) then TrimSpace(s[..|s| - 1])
    else s
  }

  lemma AllSpaceAppend(a: string, b: string)
    requires AllSpace(a) && AllSpace(b)
    ensures AllSpace(a + b)
  {
    forall i | 0 <= i < |a + b| ensures IsSpace((a + b)[i]) {
      if i < |a| { assert (a + b)[i] == a[i]; } else { assert (a + b)[i] == b[i - |a|]; }
    }
  }

  /** TrimSpace removes nothing but white space: the text is its result with
      some white space before and after. */
  lemma {:induction false} TrimSpaceFrame(s: string) returns (p: string, q: string)
    ensures AllSpace(p) && AllSpace(q) && s == p + TrimSpace(s) + q
    decreases |s|
  {
    if |s| > 0 && IsSpace(s[0]) {
      var p', q' := TrimSpaceFrame(s[1..]);
      p, q := [s[0]] + p', q';
      AllSpaceAppend([s[0]], p');
      calc {
        s;
        [s[0]] + s[1..];
        [s[0]] + (p' + TrimSpace(s[1..]) + q');
        { AppendAssoc([s[0]], p' + TrimSpace(s[1..]), q'); AppendAssoc([s[0]], p', TrimSpace(s[1..])); }
        p + TrimSpace(s) + q;
      }
    } else if |s| > 0 && IsSpace(s[|s| - 1]) {
      var last := [s[|s| - 1]];
      var p', q' := TrimSpaceFrame(s[..|s| - 1]);
      p, q := p', q' + last;
      AllSpaceAppend(q', last);
      calc {
        s;
        s[..|s| - 1] + last;
        (p' + TrimSpace(s[..|s| - 1]) + q') + last;
        { AppendAssoc(p' + TrimSpace(s[..|s| - 1]), q', last); }
        p + TrimSpace(s) + q;
      }
    } else {
      p, q := [], [];
      assert s == p + TrimSpace(s) + q;
    }
  }

  /** TrimSpace removes exactly the white space around a trimmed core: this
      characterises its result independently of how it is computed. */
  lemma {:induction false} TrimSpaceUnique(p: string, t: string, q: string)
    requires AllSpace(p) && AllSpace(q) && Trimmed(t)
    ensures TrimSpace(p + t + q) == t
    decreases |p| + |q|
  {
    var s := p + t + q;
    if |p| > 0 {
      assert TrimSpace(s) == TrimSpace(s[1..]) by {
        assert s[0] == p[0] && IsSpace(p[0]);
      }
      assert AllSpace(p[1..]) by {
        forall i | 0 <= i < |p[1..]| ensures IsSpace(p[1..][i]) {
          assert p[1..][i] == p[i + 1];
        }
      }
      assert s[1..] == p[1..] + t + q;
      TrimSpaceUnique(p[1..], t, q);
    } else if |t| > 0 {
      assert s[0] == t[0];
      if |q| > 0 {
        var q' := q[..|q| - 1];
        assert TrimSpace(s) == TrimSpace(s[..|s| - 1]) by {
          assert s[|s| - 1] == q[|q| - 1] && IsSpace(q[|q| - 1]);
        }
        assert AllSpace(q') by {
          forall i | 0 <= i < |q'| ensures IsSpace(q'[i]) {
            assert q'[i] == q[i];
          }
        }
        assert s[..|s| - 1] == p + t + q';
        TrimSpaceUnique(p, t, q');
      } else {
        assert s == t;
      }
    } else if |q| > 0 {
      assert s == q;
      assert TrimSpace(s) == TrimSpace(q[1..]) by {
        assert IsSpace(q[0]);
      }
      assert AllSpace(q[1..]) by {
        forall i | 0 <= i < |q[1..]| ensures IsSpace(q[1..][i]) {
          assert q[1..][i] == q[i + 1];
        }
      }
      assert q[1..] == [] + [] + q[1..];
      TrimSpaceUnique([], [], q[1..]);
    } else {
      assert s == [];
    }
  }

  /** TrimSpace leaves nothing exactly when the text is all white space. */
  lemma {:induction false} TrimSpaceEmpty(s: string)
    ensures TrimSpace(s) == [] <==> AllSpace(s)
    decreases |s|
  {
    if |s| > 0 && IsSpace(s[0]) {
      TrimSpaceEmpty(s[1..]);
      assert AllSpace(s) <==> AllSpace(s[1..]) by {
        assert forall i :: 1 <= i < |s| ==> s[i] == s[1..][i - 1];
      }
    } else if |s| > 0 && IsSpace(s[|s| - 1]) {
      TrimSpaceEmpty(s[..|s| - 1]);
      assert AllSpace(s) <==> AllSpace(s[..|s| - 1]) by {
        assert forall i :: 0 <= i < |s| - 1 ==> s[i] == s[..|s| - 1][i];
      }
    }
  }

  /** A text that does not start with white space keeps its first character. */
  lemma {:induction false} TrimSpaceFirst(s: string)
    requires |s| > 0 && !IsSpace(s[0])
    ensures |TrimSpace(s)| > 0 && TrimSpace(s)[0] == s[0]
    decreases |s|
  {
    if IsSpace(s[|s| - 1]) {
      assert |s| > 1;
      TrimSpaceFirst(s[..|s| - 1]);
    }
  }

  /** Inverse of Split: the pieces with `sep` between consecutive ones. */
  function Join(parts: seq<string>, sep: string): string
  {
    if |parts| == 0 then ""
    else if |parts| == 1 then parts[0]
    else parts[0] + sep + Join(parts[1..], sep)
  }

  /** Go's `strings.Split(s, sep)` for a one-character separator: the pieces
      between separators, one more than there are separators. */
  function Split(s: string, sep: char): (parts: seq<string>)
    ensures |parts| >= 1
    decreases |s|
  {
    if |s| == 0 then [""]
    else
      var rest := Split(s[1..], sep);
      if s[0] == sep then [""] + rest
      else [[s[0]] + rest[0]] + rest[1..]
  }

  /** No piece contains the separator, and joining the pieces gives the
      text back. */
  lemma {:induction false} SplitPieces(s: string, sep: char)
    ensures forall i :: 0 <= i < |Split(s, sep)| ==> sep !in Split(s, sep)[i]
    ensures Join(Split(s, sep), [sep]) == s
    decreases |s|
  {
    if |s| > 0 {
      var rest := Split(s[1..], sep);
      SplitPieces(s[1..], sep);
      if s[0] == sep {
        assert ([""] + rest)[1..] == rest;
      } else {
        var parts := [[s[0]] + rest[0]] + rest[1..];
        assert parts[1..] == rest[1..];
        assert s == [s[0]] + s[1..];
      }
    }
  }

  /** A text without the separator is a single piece. */
  lemma {:induction false} SplitWhole(s: string, sep: char)
    requires sep !in s
    ensures Split(s, sep) == [s]
    decreases |s|
  {
    if |s| > 0 {
      SplitWhole(s[1..], sep);
      assert s == [s[0]] + s[1..];
    }
  }

  /** One step of Split, for a string given as its first character and the rest. */
  lemma SplitCons(c: char, t: string, sep: char)
    ensures Split([c] + t, sep) ==
      if c == sep then [""] + Split(t, sep) else [[c] + Split(t, sep)[0]] + Split(t, sep)[1..]
  {
    assert ([c] + t)[0] == c && ([c] + t)[1..] == t;
  }

  /** Gluing a character onto the first piece commutes with appending more pieces. */
  lemma GlueFirst(c: char, xs: seq<string>, ys: seq<string>)
    requires |xs| >= 1
    ensures [[c] + (xs + ys)[0]] + (xs + ys)[1..] == ([[c] + xs[0]] + xs[1..]) + ys
  {
    assert (xs + ys)[0] == xs[0];
    assert (xs + ys)[1..] == xs[1..] + ys;
  }

  lemma AppendAssoc<T>(a: seq<T>, b: seq<T>, c: seq<T>)
    ensures a + b + c == a + (b + c)
  {
  }

  /** Splitting at one separator splits the two sides independently. */
  lemma {:induction false} SplitConcat(a: string, sep: char, b: string)
    ensures Split(a + [sep] + b, sep) == Split(a, sep) + Split(b, sep)
    decreases |a|
  {
    if |a| == 0 {
      assert a + [sep] + b == [sep] + b;
      SplitCons(sep, b, sep);
    } else {
      var t := a[1..] + [sep] + b;
      ConsAssoc(a + [sep] + b, a[1..], [sep], b);
      assert a == [a[0]] + a[1..];
      SplitConcat(a[1..], sep, b);
      SplitCons(a[0], t, sep);
      SplitCons(a[0], a[1..], sep);
      var xs, ys := Split(a[1..], sep), Split(b, sep);
      if a[0] == sep {
        AppendAssoc([""], xs, ys);
      } else {
        GlueFirst(a[0], xs, ys);
      }
    }
  }

  /** Splitting joined pieces gives the pieces back. */
  lemma {:induction false} SplitJoin(parts: seq<string>, sep: char)
    requires |parts| >= 1
    requires forall i :: 0 <= i < |parts| ==> sep !in parts[i]
    ensures Split(Join(parts, [sep]), sep) == parts
    decreases |parts|
  {
    SplitWhole(parts[0], sep);
    if |parts| > 1 {
      var rest := parts[1..];
      SplitJoin(rest, sep);
      SplitConcat(parts[0], sep, Join(rest, [sep]));
      assert parts == [parts[0]] + rest;
    }
  }

  /** Putting back the first character of a string split into three. */
  lemma ConsAssoc(s: string, x: string, y: string, z: string)
    requires |s| > 0 && s[1..] == x + y + z
    ensures s == [s[0]] + x + y + z
  {
    assert s == [s[0]] + s[1..];
  }

  /** Go's `strings.SplitN(s, sep, 2)`: the whole string when `sep` does not
      occur, otherwise the text before and after its first occurrence. */
  function SplitN2(s: string, sep: string): (parts: seq<string>)
    requires |sep| > 0
    ensures |parts| == 1 || |parts| == 2
    ensures |parts| == 1 ==> parts[0] == s
    ensures |parts| == 2 ==> s == parts[0] + sep + parts[1]
    decreases |s|
  {
    if |s| < |sep| then [s]
    else if s[..|sep|] == sep then ["", s[|sep|..]]
    else
      var rest := SplitN2(s[1..], sep);
      if |rest| == 1 then [s]
      else
        ConsAssoc(s, rest[0], sep, rest[1]);
        [[s[0]] + rest[0], rest[1]]
  }

  lemma ShiftOccurrence(s: string, sep: string, i: int)
    requires |s| > 0
    ensures OccursAt(s[1..], sep, i) <==> i >= 0 && OccursAt(s, sep, i + 1)
  {
    if 0 <= i && i + 1 + |sep| <= |s| {
      assert s[1..][i..i + |sep|] == s[i + 1..i + 1 + |sep|];
    }
  }

  /** SplitN2 cuts at the first occurrence of `sep`, and keeps the whole
      string exactly when there is none. */
  lemma {:induction false} SplitN2First(s: string, sep: string)
    requires |sep| > 0
    ensures |SplitN2(s, sep)| == 1 <==> !Contains(s, sep)
    ensures |SplitN2(s, sep)| == 2 ==>
      forall i :: 0 <= i < |SplitN2(s, sep)[0]| ==> !OccursAt(s, sep, i)
    decreases |s|
  {
    var parts := SplitN2(s, sep);
    if |s| < |sep| {
    } else if s[..|sep|] == sep {
      assert OccursAt(s, sep, 0);
    } else {
      SplitN2First(s[1..], sep);
      forall i ensures OccursAt(s[1..], sep, i) <==> i >= 0 && OccursAt(s, sep, i + 1) {
        ShiftOccurrence(s, sep, i);
      }
      assert !OccursAt(s, sep, 0);
      assert Contains(s, sep) ==> Contains(s[1..], sep) by {
        if Contains(s, sep) {
          var i :| 0 <= i <= |s| - |sep| && OccursAt(s, sep, i);
          assert OccursAt(s[1..], sep, i - 1);
        }
      }
      assert Contains(s[1..], sep) ==> Contains(s, sep) by {
        if Contains(s[1..], sep) {
          var i :| 0 <= i <= |s[1..]| - |sep| && OccursAt(s[1..], sep, i);
          assert OccursAt(s, sep, i + 1);
        }
      }
      if |parts| == 2 {
        var rest := SplitN2(s[1..], sep);
        assert |parts[0]| == |rest[0]| + 1;
        forall i | 0 < i < |parts[0]| ensures !OccursAt(s, sep, i) {
          ShiftOccurrence(s, sep, i - 1);
        }
      }
    }
  }

  /** SplitN2 cuts at the first occurrence, whatever follows it. */
  lemma {:induction false} SplitN2At(a: string, sep: string, b: string)
    requires |sep| > 0
    requires forall i :: 0 <= i < |a| ==> !OccursAt(a + sep + b, sep, i)
    ensures SplitN2(a + sep + b, sep) == [a, b]
    decreases |a|
  {
    var s := a + sep + b;
    if |a| == 0 {
      assert s[..|sep|] == sep;
      assert s[|sep|..] == b;
    } else {
      assert !OccursAt(s, sep, 0);
      assert s[1..] == a[1..] + sep + b;
      forall i | 0 <= i < |a[1..]| ensures !OccursAt(a[1..] + sep + b, sep, i) {
        ShiftOccurrence(s, sep, i);
      }
      SplitN2At(a[1..], sep, b);
      assert a == [s[0]] + a[1..];
    }
  }

  lemma ContainsTail(s: string, pat: string)
    requires |s| > 0
    ensures Contains(s[1..], pat) ==> Contains(s, pat)
  {
    forall i | 0 <= i <= |s| - 1 - |pat| && OccursAt(s[1..], pat, i)
      ensures OccursAt(s, pat, i + 1)
    {
      assert s[i + 1..i + 1 + |pat|] == s[1..][i..i + |pat|];
    }
  }

  /** Go's `strings.ReplaceAll`: leftmost, non-overlapping occurrences. */
  function ReplaceAll(s: string, pat: string, repl: string): (r: string)
    requires |pat| > 0
    ensures !Contains(s, pat) ==> r == s
    decreases |s|
  {
    if |s| == 0 then s
    else if OccursAt(s, pat, 0) then repl + ReplaceAll(s[|pat|..], pat, repl)
    else
      ContainsTail(s, pat);
      [s[0]] + ReplaceAll(s[1..], pat, repl)
  }

  /** A prefix in which no occurrence of the pattern starts passes through
      ReplaceAll unchanged. */
  lemma {:induction false} ReplaceAllPrefix(p: string, x: string, pat: string, repl: string)
    requires |pat| > 0
    requires forall i :: 0 <= i < |p| ==> !OccursAt(p + x, pat, i)
    ensures ReplaceAll(p + x, pat, repl) == p + ReplaceAll(x, pat, repl)
    decreases |p|
  {
    if |p| == 0 {
      assert p + x == x;
    } else {
      var s := p + x;
      assert !OccursAt(s, pat, 0);
      assert s[1..] == p[1..] + x;
      forall i | 0 <= i < |p[1..]| ensures !OccursAt(p[1..] + x, pat, i) {
        ShiftOccurrence(s, pat, i);
      }
      ReplaceAllPrefix(p[1..], x, pat, repl);
      AppendAssoc([p[0]], p[1..], ReplaceAll(x, pat, repl));
      assert [p[0]] + p[1..] == p;
    }
  }

  /** A line without a CRLF pair, followed by nothing or by text that starts
      with a carriage return, has no CRLF pair starting inside the line. */
  lemma NoCrlfBefore(a: string, x: string)
    requires !Contains(a, "\r\n")
    requires x == "" || x[0] == '\r'
    ensures forall i :: 0 <= i < |a| ==> !OccursAt(a + x, "\r\n", i)
  {
    forall i | 0 <= i < |a| ensures !OccursAt(a + x, "\r\n", i) {
      if i + 2 <= |a| {
        assert (a + x)[i..i + 2] == a[i..i + 2];
        assert !OccursAt(a, "\r\n", i);
      } else if i + 2 <= |a + x| {
        assert (a + x)[i + 1] == x[0];
      }
    }
  }

  /** Normalising the CRLF line ends of lines that hold no CRLF pair turns
      them into LF line ends and changes nothing else; a lone carriage
      return stays where it is. */
  lemma {:induction false} ReplaceCrlfJoin(lines: seq<string>)
    requires forall i :: 0 <= i < |lines| ==> !Contains(lines[i], "\r\n")
    ensures ReplaceAll(Join(lines, "\r\n"), "\r\n", "\n") == Join(lines, "\n")
    decreases |lines|
  {
    if |lines| == 0 {
    } else if |lines| == 1 {
      NoCrlfBefore(lines[0], "");
      ReplaceAllPrefix(lines[0], "", "\r\n", "\n");
      assert lines[0] + "" == lines[0];
    } else {
      var tail := Join(lines[1..], "\r\n");
      var rest := "\r\n" + tail;
      NoCrlfBefore(lines[0], rest);
      ReplaceAllPrefix(lines[0], rest, "\r\n", "\n");
      assert ReplaceAll(rest, "\r\n", "\n") == "\n" + ReplaceAll(tail, "\r\n", "\n") by {
        assert rest[2..] == tail;
        assert OccursAt(rest, "\r\n", 0);
      }
      ReplaceCrlfJoin(lines[1..]);
      AppendAssoc(lines[0], "\r\n", tail);
      AppendAssoc(lines[0], "\n", Join(lines[1..], "\n"));
    }
  }

  /** Every text is its CRLF-free lines joined by CRLF pairs: with
      ReplaceCrlfJoin this pins down CRLF normalisation on every text. */
  lemma {:induction false} CrlfLines(s: string) returns (lines: seq<string>)
    ensures |lines| > 0
    ensures forall i :: 0 <= i < |lines| ==> !Contains(lines[i], "\r\n")
    ensures Join(lines, "\r\n") == s
    decreases |s|
  {
    if |s| < 2 {
      lines := [s];
    } else if OccursAt(s, "\r\n", 0) {
      var rest := CrlfLines(s[2..]);
      lines := [""] + rest;
      assert lines[1..] == rest;
      assert s == "\r\n" + s[2..];
    } else {
      var rest := CrlfLines(s[1..]);
      var first := [s[0]] + rest[0];
      lines := [first] + rest[1..];
      assert lines[1..] == rest[1..];
      assert !Contains(first, "\r\n") by {
        forall i | 0 <= i <= |first| - 2 ensures !OccursAt(first, "\r\n", i) {
          if i == 0 {
            assert s[1..][0] == rest[0][0] by {
              if |rest| > 1 { AppendAssoc(rest[0], "\r\n", Join(rest[1..], "\r\n")); }
            }
            assert first[0..2] == s[0..2];
          } else {
            assert first[1..] == rest[0];
            ShiftOccurrence(first, "\r\n", i - 1);
          }
        }
      }
      if |rest| == 1 {
        assert s == [s[0]] + s[1..];
      } else {
        var tail := Join(rest[1..], "\r\n");
        AppendAssoc(first, "\r\n", tail);
        AppendAssoc(rest[0], "\r\n", tail);
        assert s == [s[0]] + s[1..];
        AppendAssoc([s[0]], rest[0], "\r\n" + tail);
      }
    }
  }

  // ---------------------------------------------------------------------
  // Single characters
  // ---------------------------------------------------------------------

  /** A `$` prefix is a leading `$`, and such a line is never blank. */
  lemma DollarLine(line: string)
    ensures HasPrefix(line, "$") <==> |line| > 0 && line[0] == '$'
    ensures HasPrefix(line, "$") ==> TrimSpace(line) != ""
  {
    if |line| > 0 {
      assert line[..1] == [line[0]];
    }
    if HasPrefix(line, "$") {
      TrimSpaceEmpty(line);
      assert !IsSpace(line[0]);
    }
  }

  /** SplitN at `:` yields two parts exactly when the line has a colon. */
  lemma ColonSplits(line: string)
    ensures |SplitN2(line, ":")| == 2 <==> ':' in line
  {
    SplitN2First(line, ":");
    if ':' in line {
      var i :| 0 <= i < |line| && line[i] == ':';
      assert OccursAt(line, ":", i);
    }
    if Contains(line, ":") {
      var i :| 0 <= i <= |line| - 1 && OccursAt(line, ":", i);
      assert line[i] == line[i..i + 1][0];
    }
  }

  /** Text without a carriage return holds no CRLF pair. */
  lemma NoCarriageReturn(s: string)
    requires '\r' !in s
    ensures !Contains(s, "\r\n")
  {
    forall i | 0 <= i <= |s| - 2 ensures !OccursAt(s, "\r\n", i) {
      assert s[i] != '\r';
    }
  }
}
