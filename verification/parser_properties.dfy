/** Properties of the declaration-line parser that relate several calls:
    what the delimiter and blank lines do to a scan, how a declaration line
    is taken apart, a printer whose output the scanner reads back exactly,
    and how `ParseTemplate` hands the declaration block to the scanner. */
module ParserProperties {
  import opened GoStrings
  import opened Values
  import opened Parser
  import ModelTypes

  // ---------------------------------------------------------------------
  // Scanning
  // ---------------------------------------------------------------------

  /** Nothing after the first delimiter line reaches the scanner. */
  lemma {:induction false} DelimiterStops(pre: seq<string>, d: string, post: seq<string>, vars: seq<Variable>)
    requires IsDelimiterLine(d)
    ensures Scan(pre + [d] + post, vars) == Scan(pre, vars)
    decreases |pre|
  {
    var lines := pre + [d] + post;
    if |pre| == 0 {
      assert lines[0] == d;
    } else {
      assert lines[0] == pre[0];
      assert lines[1..] == pre[1..] + [d] + post;
      if !IsDelimiterLine(pre[0]) {
        DelimiterStops(pre[1..], d, post, Step(vars, pre[0]));
      }
    }
  }

  /** A white-space-only line is neither the delimiter nor anything else. */
  lemma BlankLine(w: string)
    requires AllSpace(w)
    ensures !IsDelimiterLine(w)
    ensures Classify(w) == Blank
  {
    TrimSpaceEmpty(w);
  }

  /** White-space-only lines change nothing, wherever they stand. */
  lemma {:induction false} BlankLineIgnored(pre: seq<string>, w: string, post: seq<string>, vars: seq<Variable>)
    requires AllSpace(w)
    ensures Scan(pre + [w] + post, vars) == Scan(pre + post, vars)
    decreases |pre|
  {
    BlankLine(w);
    var lines := pre + [w] + post;
    if |pre| == 0 {
      assert lines[0] == w && lines[1..] == post && pre + post == post;
      assert Step(vars, w) == vars;
      assert Scan(lines, vars) == Scan(lines[1..], Step(vars, w));
    } else {
      var rest := pre + post;
      assert lines[0] == pre[0] && rest[0] == pre[0];
      assert lines[1..] == pre[1..] + [w] + post;
      assert rest[1..] == pre[1..] + post;
      if !IsDelimiterLine(pre[0]) {
        var next := Step(vars, pre[0]);
        assert Scan(lines, vars) == Scan(lines[1..], next);
        assert Scan(rest, vars) == Scan(rest[1..], next);
        BlankLineIgnored(pre[1..], w, post, next);
      } else {
        assert Scan(lines, vars) == vars;
        assert Scan(rest, vars) == vars;
      }
    }
  }

  lemma SingleLine(line: string)
    requires '\n' !in line
    ensures Split(line, '\n') == [line]
  {
    SplitJoin([line], '\n');
  }

  /** The lines of a text that has `line` on a line of its own. */
  lemma LinesAround(head: string, line: string, tail: string)
    requires '\n' !in line
    ensures Split(head + "\n" + line + "\n" + tail, '\n')
      == Split(head, '\n') + [line] + Split(tail, '\n')
  {
    var rest := line + "\n" + tail;
    var a, b := Split(head, '\n'), Split(tail, '\n');
    assert Split(rest, '\n') == [line] + b by {
      SingleLine(line);
      SplitConcat(line, '\n', tail);
    }
    assert head + "\n" + line + "\n" + tail == head + "\n" + rest;
    assert Split(head + "\n" + rest, '\n') == a + ([line] + b) by {
      SplitConcat(head, '\n', rest);
    }
    assert a + ([line] + b) == a + [line] + b;
  }

  /** The same two facts for the text `ParseVariables` is given: a text is
      cut off at a delimiter line, and a blank line can be dropped. */
  lemma ParseStopsAtDelimiter(head: string, d: string, tail: string)
    requires IsDelimiterLine(d) && '\n' !in d
    ensures ParseVariables(head + "\n" + d + "\n" + tail) == ParseVariables(head)
  {
    LinesAround(head, d, tail);
    DelimiterStops(Split(head, '\n'), d, Split(tail, '\n'), []);
  }

  lemma ParseSkipsBlankLine(head: string, w: string, tail: string)
    requires AllSpace(w) && '\n' !in w
    ensures ParseVariables(head + "\n" + w + "\n" + tail) == ParseVariables(head + "\n" + tail)
  {
    LinesAround(head, w, tail);
    SplitConcat(head, '\n', tail);
    assert head + "\n" + tail == head + ['\n'] + tail;
    BlankLineIgnored(Split(head, '\n'), w, Split(tail, '\n'), []);
  }

  // ---------------------------------------------------------------------
  // Declaration lines
  // ---------------------------------------------------------------------

  /** The first `:` splits a `$` line into the name part and the rest. */
  lemma SplitAtFirstColon(name: string, rest: string)
    requires ':' !in name
    ensures SplitN2("$" + name + ":" + rest, ":") == ["$" + name, rest]
  {
    var a := "$" + name;
    forall i | 0 <= i < |a| ensures !OccursAt(a + ":" + rest, ":", i) {
      assert (a + ":" + rest)[i] == a[i];
    }
    SplitN2At(a, ":", rest);
  }

  /** Field extraction: the name is the trimmed text between `$` and the
      first `:`, the type the trimmed text up to the first `//` after it,
      and the description the trimmed text after that `//`. */
  lemma DeclareWithDescription(name: string, kind: string, desc: string)
    requires ':' !in name
    requires !Contains(kind + "/", "//")
    ensures IsDeclarationLine("$" + name + ":" + kind + "//" + desc)
    ensures Declare("$" + name + ":" + kind + "//" + desc)
      == Variable(TrimSpace(name), TrimSpace(desc), TrimSpace(kind), [], Nil)
  {
    var rest := kind + "//" + desc;
    var line := "$" + name + ":" + rest;
    assert line == "$" + name + ":" + kind + "//" + desc;
    SplitAtFirstColon(name, rest);
    assert line[|name| + 1] == ':';
    forall i | 0 <= i < |kind| ensures !OccursAt(rest, "//", i) {
      assert !OccursAt(kind + "/", "//", i);
      assert rest[i..i + 2] == (kind + "/")[i..i + 2];
    }
    SplitN2At(kind, "//", desc);
  }

  lemma DeclareWithoutDescription(name: string, kind: string)
    requires ':' !in name
    requires !Contains(kind, "//")
    ensures IsDeclarationLine("$" + name + ":" + kind)
    ensures Declare("$" + name + ":" + kind)
      == Variable(TrimSpace(name), "", TrimSpace(kind), [], Nil)
  {
    var line := "$" + name + ":" + kind;
    SplitAtFirstColon(name, kind);
    assert line[|name| + 1] == ':';
    SplitN2First(kind, "//");
  }

  // ---------------------------------------------------------------------
  // A printer for declaration blocks, and the round trip through the scanner
  // ---------------------------------------------------------------------

  /** The declaration line of a variable: `$name: type` and, when there is a
      description, ` // description`. */
  function DeclarationLine(v: Variable): string {
    "$" + v.name + ": " + v.kind + (if v.description == "" then "" else " // " + v.description)
  }

  function OptionLine(o: string): string {
    "- " + o
  }

  function OptionLines(options: seq<string>): (ls: seq<string>)
    ensures |ls| == |options|
    ensures forall i :: 0 <= i < |options| ==> ls[i] == OptionLine(options[i])
  {
    seq(|options|, i requires 0 <= i < |options| => OptionLine(options[i]))
  }

  function VariableLines(v: Variable): seq<string> {
    [DeclarationLine(v)] + OptionLines(v.options)
  }

  function BlockLines(vars: seq<Variable>): seq<string> {
    if |vars| == 0 then [] else VariableLines(vars[0]) + BlockLines(vars[1..])
  }

  /** The declaration block that declares `vars`, one line per declaration
      and per option. */
  function Format(vars: seq<Variable>): string {
    Join(BlockLines(vars), "\n")
  }

  predicate OneLine(s: string) {
    Trimmed(s) && '\n' !in s
  }

  /** A variable the printer can write so that the scanner reads it back:
      trimmed single-line fields, no `:` in the name, no `/` in the type,
      options only on select kinds, and no value yet. */
  predicate Printable(v: Variable) {
    && OneLine(v.name) && ':' !in v.name
    && OneLine(v.kind) && '/' !in v.kind
    && OneLine(v.description)
    && (forall i :: 0 <= i < |v.options| ==> OneLine(v.options[i]))
    && FreshVariable(v)
  }

  /** Without a `/`, not even one more `/` at the end makes a `//`. */
  lemma NoDoubleSlash(s: string)
    requires '/' !in s
    ensures !Contains(s, "//") && !Contains(s + "/", "//")
  {
    forall i | 0 <= i <= |s| + 1 - 2 ensures !OccursAt(s + "/", "//", i) {
      assert (s + "/")[i] == s[i];
    }
    forall i | 0 <= i <= |s| - 2 ensures !OccursAt(s, "//", i) {
      assert s[i] != '/';
    }
  }

  lemma SpaceAround(t: string)
    requires Trimmed(t)
    ensures TrimSpace(" " + t) == t && TrimSpace(" " + t + " ") == t
  {
    TrimSpaceUnique(" ", t, "");
    assert " " + t + "" == " " + t;
    TrimSpaceUnique(" ", t, " ");
  }

  lemma TrimmedName(v: Variable)
    requires Printable(v)
    ensures TrimSpace(v.name) == v.name
  {
    TrimSpaceUnique("", v.name, "");
    assert "" + v.name + "" == v.name;
  }

  /** The scanner reads a printed declaration line back as the variable with
      its options dropped. */
  lemma ReadDeclarationLine(v: Variable)
    requires Printable(v)
    ensures IsDeclarationLine(DeclarationLine(v))
    ensures Declare(DeclarationLine(v)) == v.(options := [])
  {
    if v.description == "" {
      ReadPlainDeclaration(v);
    } else {
      ReadDescribedDeclaration(v);
    }
  }

  lemma ReadPlainDeclaration(v: Variable)
    requires Printable(v) && v.description == ""
    ensures IsDeclarationLine(DeclarationLine(v))
    ensures Declare(DeclarationLine(v)) == v.(options := [])
  {
    TrimmedName(v);
    var k := " " + v.kind;
    assert DeclarationLine(v) == "$" + v.name + ":" + k;
    NoDoubleSlash(k);
    DeclareWithoutDescription(v.name, k);
    SpaceAround(v.kind);
  }

  lemma ReadDescribedDeclaration(v: Variable)
    requires Printable(v) && v.description != ""
    ensures IsDeclarationLine(DeclarationLine(v))
    ensures Declare(DeclarationLine(v)) == v.(options := [])
  {
    TrimmedName(v);
    var k, d := " " + v.kind + " ", " " + v.description;
    assert DeclarationLine(v) == "$" + v.name + ":" + k + "//" + d;
    NoDoubleSlash(k);
    DeclareWithDescription(v.name, k, d);
    SpaceAround(v.kind);
    SpaceAround(v.description);
  }

  /** A printed option line is an option line carrying that option. */
  lemma ReadOptionLine(o: string)
    requires OneLine(o)
    ensures !IsDelimiterLine(OptionLine(o))
    ensures IsOptionLine(OptionLine(o)) && OptionText(OptionLine(o)) == o
  {
    var line := OptionLine(o);
    var t, q := if o == "" then "-" else line, if o == "" then " " else "";
    assert TrimSpace(line) == t by {
      assert line == "" + t + q;
      TrimSpaceUnique("", t, q);
    }
    assert t != "---" by {
      assert t == "-" || t[1] == ' ';
    }
    assert !HasPrefix(line, "$") by {
      assert line[0] == '-';
    }
    assert HasPrefix(t, "-") by {
      assert t[0] == '-';
    }
    assert TrimSpace(t[1..]) == o by {
      if o == "" {
        assert t[1..] == "";
      } else {
        assert t[1..] == " " + o;
        SpaceAround(o);
      }
    }
    assert Classify(line) == OptionEntry(o);
  }

  /** Trimming a padded option line keeps the `-`, the padding after it and
      the option; with no option, only the `-`. */
  lemma TrimPaddedOption(w1: string, w2: string, o: string, w3: string) returns (t: string)
    requires AllSpace(w1) && AllSpace(w2) && AllSpace(w3) && Trimmed(o)
    ensures t == if o == "" then "-" else "-" + w2 + o
    ensures TrimSpace(w1 + "-" + w2 + o + w3) == t
    ensures TrimSpace(t[1..]) == o
  {
    var line := w1 + "-" + w2 + o + w3;
    if o == "" {
      t := "-";
      AllSpaceAppend(w2, w3);
      assert line == w1 + t + (w2 + w3);
      TrimSpaceUnique(w1, t, w2 + w3);
    } else {
      t := "-" + w2 + o;
      assert t[|t| - 1] == o[|o| - 1];
      assert line == w1 + t + w3;
      TrimSpaceUnique(w1, t, w3);
      assert t[1..] == w2 + o + "";
      TrimSpaceUnique(w2, o, "");
    }
  }

  /** Any option line, however it is padded: white space before the `-`,
      between the `-` and the option, and after the option is dropped. Only
      `---` itself is the delimiter instead. */
  lemma ReadPaddedOptionLine(w1: string, w2: string, o: string, w3: string)
    requires AllSpace(w1) && AllSpace(w2) && AllSpace(w3) && Trimmed(o)
    requires !(w2 == "" && o == "--")
    ensures !IsDelimiterLine(w1 + "-" + w2 + o + w3)
    ensures Classify(w1 + "-" + w2 + o + w3) == OptionEntry(o)
  {
    var line := w1 + "-" + w2 + o + w3;
    var t := TrimPaddedOption(w1, w2, o, w3);
    assert t != "---" by {
      if |t| == 3 && o != "" {
        if w2 == "" { assert t[1..] == o; } else { assert IsSpace(t[1]); }
      }
    }
    assert !HasPrefix(line, "$") by {
      if |w1| > 0 { assert line[0] == w1[0] && IsSpace(w1[0]); } else { assert line[0] == '-'; }
    }
    assert HasPrefix(t, "-") by {
      assert t[0] == '-';
    }
  }

  /** A declaration line starts with `$`, so it is never the delimiter. */
  lemma DeclarationNotDelimiter(line: string)
    requires IsDeclarationLine(line)
    ensures !IsDelimiterLine(line)
  {
    TrimSpaceFirst(line);
  }

  /** Scanning a block that has no delimiter line in two pieces. */
  lemma {:induction false} ScanAppend(xs: seq<string>, ys: seq<string>, vars: seq<Variable>)
    requires forall i :: 0 <= i < |xs| ==> !IsDelimiterLine(xs[i])
    ensures Scan(xs + ys, vars) == Scan(ys, Scan(xs, vars))
    decreases |xs|
  {
    if |xs| == 0 {
      assert xs + ys == ys;
    } else {
      assert (xs + ys)[0] == xs[0];
      assert (xs + ys)[1..] == xs[1..] + ys;
      ScanAppend(xs[1..], ys, Step(vars, xs[0]));
    }
  }

  /** One option line after a select variable appends its option. */
  lemma StepOption(init: seq<Variable>, last: Variable, o: string)
    requires ModelTypes.IsSelectKind(last.kind) && OneLine(o)
    ensures Step(init + [last], OptionLine(o)) == init + [last.(options := last.options + [o])]
  {
    ReadOptionLine(o);
    var vars := init + [last];
    assert vars[..|vars| - 1] == init;
    assert vars[|vars| - 1] == last;
  }

  /** The first of several option lines after a select variable. */
  lemma ScanFirstOption(options: seq<string>, init: seq<Variable>, last: Variable)
    requires |options| > 0 && ModelTypes.IsSelectKind(last.kind) && OneLine(options[0])
    ensures Scan(OptionLines(options), init + [last])
      == Scan(OptionLines(options[1..]), init + [last.(options := last.options + [options[0]])])
  {
    var lines := OptionLines(options);
    assert lines[0] == OptionLine(options[0]);
    assert lines[1..] == OptionLines(options[1..]);
    ReadOptionLine(options[0]);
    StepOption(init, last, options[0]);
  }

  /** Option lines after a select variable append their options to it. */
  lemma {:induction false} ScanOptions(options: seq<string>, init: seq<Variable>, last: Variable)
    requires |options| > 0 ==> ModelTypes.IsSelectKind(last.kind)
    requires forall i :: 0 <= i < |options| ==> OneLine(options[i])
    ensures Scan(OptionLines(options), init + [last]) == init + [last.(options := last.options + options)]
    decreases |options|
  {
    if |options| == 0 {
      assert last.(options := last.options + options) == last;
    } else {
      var next := last.(options := last.options + [options[0]]);
      ScanFirstOption(options, init, last);
      ScanOptions(options[1..], init, next);
      assert next.options + options[1..] == last.options + options by {
        AppendAssoc(last.options, [options[0]], options[1..]);
        assert [options[0]] + options[1..] == options;
      }
    }
  }

  lemma VariableLinesNoDelimiter(v: Variable)
    requires Printable(v)
    ensures forall i :: 0 <= i < |VariableLines(v)| ==> !IsDelimiterLine(VariableLines(v)[i])
  {
    var d, os := DeclarationLine(v), OptionLines(v.options);
    assert !IsDelimiterLine(d) by {
      ReadDeclarationLine(v);
      DeclarationNotDelimiter(d);
    }
    assert forall i :: 0 <= i < |os| ==> !IsDelimiterLine(os[i]) by {
      forall i | 0 <= i < |os| ensures !IsDelimiterLine(os[i]) {
        ReadOptionLine(v.options[i]);
      }
    }
    assert VariableLines(v) == [d] + os;
  }

  lemma ScanSingle(line: string, vars: seq<Variable>)
    requires !IsDelimiterLine(line)
    ensures Scan([line], vars) == Step(vars, line)
  {
    assert [line][1..] == [];
  }

  /** The scanner reads the lines of one printed variable back as that variable. */
  lemma ScanVariableLines(v: Variable, vars: seq<Variable>)
    requires Printable(v)
    ensures Scan(VariableLines(v), vars) == vars + [v]
  {
    var d, os := DeclarationLine(v), OptionLines(v.options);
    var first := v.(options := []);
    assert Scan([d], vars) == vars + [first] by {
      ReadDeclarationLine(v);
      DeclarationNotDelimiter(d);
      ScanSingle(d, vars);
    }
    assert Scan([d] + os, vars) == Scan(os, vars + [first]) by {
      ReadDeclarationLine(v);
      DeclarationNotDelimiter(d);
      ScanAppend([d], os, vars);
    }
    assert Scan(os, vars + [first]) == vars + [v] by {
      ScanOptions(v.options, vars, first);
      assert first.options + v.options == v.options;
    }
  }

  lemma {:induction false} ScanBlockLines(vars: seq<Variable>, acc: seq<Variable>)
    requires forall i :: 0 <= i < |vars| ==> Printable(vars[i])
    ensures Scan(BlockLines(vars), acc) == acc + vars
    decreases |vars|
  {
    if |vars| == 0 {
      assert acc + vars == acc;
    } else {
      var v, xs, ys := vars[0], VariableLines(vars[0]), BlockLines(vars[1..]);
      assert BlockLines(vars) == xs + ys;
      assert Scan(xs + ys, acc) == Scan(ys, acc + [v]) by {
        VariableLinesNoDelimiter(v);
        ScanAppend(xs, ys, acc);
        ScanVariableLines(v, acc);
      }
      var tail := vars[1..];
      forall i | 0 <= i < |tail| ensures Printable(tail[i]) {
        assert tail[i] == vars[i + 1];
      }
      ScanBlockLines(tail, acc + [v]);
      assert vars == [v] + tail;
      AppendAssoc(acc, [v], tail);
    }
  }

  lemma {:induction false} BlockLinesOneLine(vars: seq<Variable>)
    requires forall i :: 0 <= i < |vars| ==> Printable(vars[i])
    ensures forall i :: 0 <= i < |BlockLines(vars)| ==> '\n' !in BlockLines(vars)[i]
    decreases |vars|
  {
    if |vars| > 0 {
      var xs, ys := VariableLines(vars[0]), BlockLines(vars[1..]);
      assert BlockLines(vars) == xs + ys;
      VariableLinesOneLine(vars[0]);
      BlockLinesOneLine(vars[1..]);
      forall i | 0 <= i < |xs + ys| ensures '\n' !in (xs + ys)[i] {
        if i < |xs| {
          assert (xs + ys)[i] == xs[i];
        } else {
          assert (xs + ys)[i] == ys[i - |xs|];
        }
      }
    }
  }

  lemma VariableLinesOneLine(v: Variable)
    requires Printable(v)
    ensures forall i :: 0 <= i < |VariableLines(v)| ==> '\n' !in VariableLines(v)[i]
  {
    var d := DeclarationLine(v);
    assert '\n' !in d by {
      var tail := if v.description == "" then "" else " // " + v.description;
      assert d == "$" + v.name + ": " + v.kind + tail;
      assert '\n' !in tail;
    }
  }

  /** Round trip: the scanner reads a printed block back as the variables
      it was printed from. */
  lemma ParseFormat(vars: seq<Variable>)
    requires forall i :: 0 <= i < |vars| ==> Printable(vars[i])
    ensures ParseVariables(Format(vars)) == vars
  {
    var lines := BlockLines(vars);
    ScanBlockLines(vars, []);
    BlockLinesOneLine(vars);
    assert [] + vars == vars;
    if |lines| == 0 {
      SplitJoin([""], '\n');
      BlankLine("");
      assert Scan([""], []) == Scan([], Step([], ""));
    } else {
      SplitJoin(lines, '\n');
    }
  }

  // ---------------------------------------------------------------------
  // Prompting
  // ---------------------------------------------------------------------

  /** Variables that have a value, or a type without a widget, are settled:
      the loop leaves them as they are. */
  predicate Settled(v: Variable) {
    v.value != Nil || WidgetFor(v.kind) == NoWidget
  }

  lemma {:induction false} AskFromSettled(vars: seq<Variable>, i: nat, oracle: Oracle)
    requires i <= |vars|
    requires forall j :: i <= j < |vars| ==> Settled(vars[j])
    ensures AskFrom(vars, i, oracle) == Done(vars)
    decreases |vars| - i
  {
    if i < |vars| {
      if vars[i].value == Nil {
        assert vars[i := vars[i].(value := Nil)] == vars;
      }
      AskFromSettled(vars, i + 1, oracle);
    }
  }

  /** Asking again after a completed round asks nothing and changes nothing. */
  lemma AskAgain(vars: seq<Variable>, oracle: Oracle)
    requires AskForVariables(vars, oracle).Done?
    ensures AskForVariables(AskForVariables(vars, oracle).vars, oracle)
      == AskForVariables(vars, oracle)
  {
    var done := AskForVariables(vars, oracle).vars;
    assert forall j :: 0 <= j < |done| ==> Settled(done[j]) by {
      forall j | 0 <= j < |done| ensures Settled(done[j]) {
        assert HeaderOf(done[j]) == HeaderOf(vars[j]);
      }
    }
    AskFromSettled(done, 0, oracle);
  }

  // ---------------------------------------------------------------------
  // The document split
  // ---------------------------------------------------------------------

  lemma DelimiterText()
    ensures IsDelimiterLine("---")
  {
    TrimSpaceUnique("", "---", "");
    assert "" + "---" + "" == "---";
  }

  /** Only the part before the first separator is scanned, and scanning the
      whole normalised document gives the same variables: the scanner stops
      at the `---` line of the separator anyway. */
  lemma ScannedPart(doc: string)
    ensures ParseVariables(SplitN2(Normalize(doc), Separator)[0]) == ParseVariables(Normalize(doc))
  {
    ScannedText(Normalize(doc));
  }

  lemma ScannedText(text: string)
    ensures ParseVariables(SplitN2(text, Separator)[0]) == ParseVariables(text)
  {
    var parts := SplitN2(text, Separator);
    if |parts| == 2 {
      var head, tail := parts[0], parts[1];
      assert text == head + "\n" + "---" + "\n" + tail by {
        assert text == head + Separator + tail;
        assert Separator == "\n" + "---" + "\n";
        AppendAssoc(head, "\n" + "---", "\n");
        AppendAssoc(head, "\n", "---");
        AppendAssoc(head + "\n" + "---", "\n", tail);
      }
      DelimiterText();
      ParseStopsAtDelimiter(head, "---", tail);
    }
  }

  lemma NamesOfAsked(vars: seq<Variable>, oracle: Oracle)
    ensures Names(AskForVariables(vars, oracle).vars) == Names(vars)
  {
    var asked := AskForVariables(vars, oracle).vars;
    forall k ensures k in Names(asked) <==> k in Names(vars) {
      if k in Names(asked) {
        var i :| 0 <= i < |asked| && asked[i].name == k;
        assert HeaderOf(asked[i]) == HeaderOf(vars[i]);
      }
      if k in Names(vars) {
        var i :| 0 <= i < |vars| && vars[i].name == k;
        assert HeaderOf(asked[i]) == HeaderOf(vars[i]);
      }
    }
  }

  /** The environment handed to the template engines binds exactly the
      declared names, to the answers of the prompting loop. */
  lemma TemplateEnvironment(doc: string, oracle: Oracle)
    requires ParseTemplate(doc, oracle).Ready?
    ensures
      var asked := AskForVariables(ParseVariables(Normalize(doc)), oracle);
      && asked.Done?
      && ParseTemplate(doc, oracle).env == VariablesToMap(asked.vars)
      && ParseTemplate(doc, oracle).env.Keys == Names(ParseVariables(Normalize(doc)))
  {
    ScannedPart(doc);
    NamesOfAsked(ParseVariables(Normalize(doc)), oracle);
  }

  lemma {:induction false} JoinNoCarriageReturn(lines: seq<string>)
    requires forall i :: 0 <= i < |lines| ==> '\r' !in lines[i]
    ensures '\r' !in Join(lines, "\n")
    decreases |lines|
  {
    if |lines| > 1 {
      JoinNoCarriageReturn(lines[1..]);
    }
  }

  /** Normalisation on any document, lone carriage returns included: the
      document is its CRLF-free lines joined by CRLF pairs, and its normal
      form is the same lines joined by LF. */
  lemma NormalizeLines(doc: string) returns (lines: seq<string>)
    ensures forall i :: 0 <= i < |lines| ==> !Contains(lines[i], "\r\n")
    ensures Join(lines, "\r\n") == doc
    ensures Normalize(doc) == Join(lines, "\n")
  {
    lines := CrlfLines(doc);
    ReplaceCrlfJoin(lines);
  }

  /** A lone carriage return survives normalisation, even right before a
      CRLF pair. */
  lemma LoneCarriageReturn()
    ensures Normalize("a\rb\r\nc") == "a\rb\nc"
    ensures Normalize("a\r\r\nb") == "a\r\nb"
  {
    assert "a\rb" + "\r\n" + "c" == "a\rb\r\nc";
    assert "a\rb" + "\n" + "c" == "a\rb\nc";
    assert '\n' !in "a\rb" by {
      assert forall i | 0 <= i < 3 :: "a\rb"[i] != '\n';
    }
    LoneCarriageReturnIn("a\rb", "c");
    assert "a\r" + "\r\n" + "b" == "a\r\r\nb";
    assert "a\r" + "\n" + "b" == "a\r\nb";
    LoneCarriageReturnIn("a\r", "b");
  }

  lemma LoneCarriageReturnIn(a: string, b: string)
    requires '\n' !in a && '\r' !in b
    ensures Normalize(a + "\r\n" + b) == a + "\n" + b
  {
    var lines := [a, b];
    forall i | 0 <= i <= |a| - 2 ensures !OccursAt(a, "\r\n", i) {
      assert a[i + 1] != '\n';
    }
    NoCarriageReturn(b);
    ReplaceCrlfJoin(lines);
  }

  /** `ParseTemplate` sees a document only through its normalised text. */
  lemma SameNormalForm(d1: string, d2: string, oracle: Oracle)
    requires Normalize(d1) == Normalize(d2)
    ensures ParseTemplate(d1, oracle) == ParseTemplate(d2, oracle)
  {
  }

  /** A document written with CRLF line ends is read as the same document
      written with LF line ends. */
  lemma CrlfInsensitive(lines: seq<string>, oracle: Oracle)
    requires forall i :: 0 <= i < |lines| ==> '\r' !in lines[i]
    ensures ParseTemplate(Join(lines, "\r\n"), oracle) == ParseTemplate(Join(lines, "\n"), oracle)
  {
    var crlf, lf := Join(lines, "\r\n"), Join(lines, "\n");
    assert Normalize(crlf) == Normalize(lf) by {
      forall i | 0 <= i < |lines| ensures !Contains(lines[i], "\r\n") {
        NoCarriageReturn(lines[i]);
      }
      ReplaceCrlfJoin(lines);
      JoinNoCarriageReturn(lines);
      NoCarriageReturn(lf);
    }
    SameNormalForm(crlf, lf, oracle);
  }
}
