/** The declaration-line parser of `pkg/parser/parser.go`: the scanner that
    turns the declaration block into variables, the conversion into a name
    map, the prompting loop with the prompt widgets replaced by an oracle,
    and the document split that feeds them. */
module Parser {
  import opened GoStrings
  import opened Values
  import ModelTypes

  /** A declared variable. `options` is only filled for select kinds; `value`
      stays nil until the variable is asked. */
  datatype Variable = Variable(
    name: string,
    description: string,
    kind: string,
    options: seq<string>,
    value: Val)

  /** What one declaration line says about a variable. */
  datatype Header = Header(name: string, kind: string, description: string)

  function HeaderOf(v: Variable): Header {
    Header(v.name, v.kind, v.description)
  }

  function Headers(vs: seq<Variable>): (hs: seq<Header>)
    ensures |hs| == |vs|
    ensures forall i :: 0 <= i < |vs| ==> hs[i] == HeaderOf(vs[i])
  {
    seq(|vs|, i requires 0 <= i < |vs| => HeaderOf(vs[i]))
  }

  /** A line whose trimmed text is `---` ends the declaration block. */
  predicate IsDelimiterLine(line: string) {
    TrimSpace(line) == "---"
  }

  /** How the scanning loop reads a line that is not the delimiter. */
  datatype LineClass =
    | Blank                    // white space only
    | Declaration              // `$` first and a `:` somewhere
    | Malformed                // `$` first but no `:`
    | OptionEntry(text: string) // trimmed text starts with `-`
    | Ignored                  // anything else

  function Classify(line: string): (c: LineClass)
    ensures c == Blank <==> AllSpace(line)
    ensures c == Declaration <==> |line| > 0 && line[0] == '$' && ':' in line
    ensures c == Malformed <==> |line| > 0 && line[0] == '$' && ':' !in line
    ensures c.OptionEntry? <==>
      !AllSpace(line) && line[0] != '$' && HasPrefix(TrimSpace(line), "-")
    ensures c.OptionEntry? ==> Trimmed(c.text)
  {
    DollarLine(line);
    ColonSplits(line);
    TrimSpaceEmpty(line);
    if TrimSpace(line) == "" then Blank
    else if HasPrefix(line, "$") then
      if |SplitN2(line, ":")| == 2 then Declaration else Malformed
    else if HasPrefix(TrimSpace(line), "-") then
      OptionEntry(TrimSpace(TrimSpace(line)[1..]))
    else Ignored
  }

  /** The option of an option line is what follows the `-` of the trimmed
      line, less the white space `p` before it and `q` after it. */
  lemma OptionEntryText(line: string) returns (p: string, q: string)
    requires Classify(line).OptionEntry?
    ensures AllSpace(p) && AllSpace(q)
    ensures TrimSpace(line)[1..] == p + Classify(line).text + q
  {
    p, q := TrimSpaceFrame(TrimSpace(line)[1..]);
  }

  /** A line that declares a variable: it starts with `$` and has a `:`. */
  predicate IsDeclarationLine(line: string) {
    Classify(line) == Declaration
  }

  /** A line that adds an option to a preceding select variable. */
  predicate IsOptionLine(line: string) {
    Classify(line).OptionEntry?
  }

  /** The option an option line contributes: the trimmed text after the `-`. */
  function OptionText(line: string): string
    requires IsOptionLine(line)
  {
    Classify(line).text
  }

  /** The variable a declaration line introduces: `$name: type // description`. */
  function Declare(line: string): (v: Variable)
    requires IsDeclarationLine(line)
    ensures v.options == [] && v.value == Nil
    ensures Trimmed(v.name) && Trimmed(v.kind) && Trimmed(v.description)
  {
    var parts := SplitN2(line, ":");
    var typeDesc := SplitN2(parts[1], "//");
    Variable(
      name := TrimSpace(parts[0][1..]),
      description := if |typeDesc| == 2 then TrimSpace(typeDesc[1]) else "",
      kind := TrimSpace(typeDesc[0]),
      options := [],
      value := Nil)
  }

  /** Variables as the scanner produces them: no value yet, and options only
      on select kinds. */
  predicate Fresh(vs: seq<Variable>) {
    forall i :: 0 <= i < |vs| ==> FreshVariable(vs[i])
  }

  predicate FreshVariable(v: Variable) {
    v.value == Nil && (v.options != [] ==> ModelTypes.IsSelectKind(v.kind))
  }

  /** One iteration of the scanning loop. The most recent variable is the
      last one of `vars`. */
  function Step(vars: seq<Variable>, line: string): (r: seq<Variable>)
    ensures IsDeclarationLine(line) ==> r == vars + [Declare(line)]
    ensures !IsDeclarationLine(line) ==> |r| == |vars|
    ensures forall i :: 0 <= i < |vars| - 1 ==> r[i] == vars[i]
    ensures |vars| > 0 ==>
      var last := vars[|vars| - 1];
      || r[|vars| - 1] == last
      || (ModelTypes.IsSelectKind(last.kind) && IsOptionLine(line)
          && r[|vars| - 1] == last.(options := last.options + [OptionText(line)]))
    ensures |vars| > 0 && ModelTypes.IsSelectKind(vars[|vars| - 1].kind) && IsOptionLine(line) ==>
      r[|vars| - 1].options == vars[|vars| - 1].options + [OptionText(line)]
    ensures Fresh(vars) ==> Fresh(r)
  {
    match Classify(line)
    case Declaration =>
      var r := vars + [Declare(line)];
      assert Fresh(vars) ==> Fresh(r) by {
        if Fresh(vars) {
          forall i | 0 <= i < |r| ensures FreshVariable(r[i]) {
            if i < |vars| { assert r[i] == vars[i]; }
          }
        }
      }
      r
    case OptionEntry(option) =>
      if |vars| > 0 && ModelTypes.IsSelectKind(vars[|vars| - 1].kind) then
        var last := vars[|vars| - 1];
        var r := vars[..|vars| - 1] + [last.(options := last.options + [option])];
        assert Fresh(vars) ==> Fresh(r) by {
          if Fresh(vars) {
            forall i | 0 <= i < |r| ensures FreshVariable(r[i]) {
              if i < |vars| - 1 { assert r[i] == vars[i]; }
            }
          }
        }
        r
      else vars
    case _ => vars
  }

  /** The scanning loop, from some state on: stops before the first
      delimiter line. */
  function Scan(lines: seq<string>, vars: seq<Variable>): (r: seq<Variable>)
    ensures |vars| <= |r|
    ensures forall i :: 0 <= i < |vars| - 1 ==> r[i] == vars[i]
    ensures |vars| > 0 ==>
      && r[|vars| - 1] == vars[|vars| - 1].(options := r[|vars| - 1].options)
      && vars[|vars| - 1].options <= r[|vars| - 1].options
    ensures Fresh(vars) ==> Fresh(r)
    decreases |lines|
  {
    if |lines| == 0 || IsDelimiterLine(lines[0]) then vars
    else Scan(lines[1..], Step(vars, lines[0]))
  }

  /** Reference reading of a declaration block: the headers of the
      declaration lines before the first delimiter, in order. */
  function DeclaredHeaders(lines: seq<string>): seq<Header> {
    if |lines| == 0 || IsDelimiterLine(lines[0]) then []
    else
      LineHeaders(lines[0]) + DeclaredHeaders(lines[1..])
  }

  /** The headers a line adds to the block read so far. */
  function LineHeaders(line: string): seq<Header> {
    if IsDeclarationLine(line) then [HeaderOf(Declare(line))] else []
  }

  lemma StepHeaders(vars: seq<Variable>, line: string)
    ensures Headers(Step(vars, line)) == Headers(vars) + LineHeaders(line)
  {
    var r := Step(vars, line);
    if !IsDeclarationLine(line) && |vars| > 0 {
      assert HeaderOf(r[|vars| - 1]) == HeaderOf(vars[|vars| - 1]);
    }
  }

  lemma {:induction false} ScanHeaders(lines: seq<string>, vars: seq<Variable>)
    ensures Headers(Scan(lines, vars)) == Headers(vars) + DeclaredHeaders(lines)
    decreases |lines|
  {
    if |lines| == 0 || IsDelimiterLine(lines[0]) {
      assert Headers(vars) + [] == Headers(vars);
    } else {
      var next := Step(vars, lines[0]);
      var a, b, c := Headers(vars), LineHeaders(lines[0]), DeclaredHeaders(lines[1..]);
      assert Headers(next) == a + b by {
        StepHeaders(vars, lines[0]);
      }
      assert Headers(Scan(lines[1..], next)) == Headers(next) + c by {
        ScanHeaders(lines[1..], next);
      }
      assert Scan(lines, vars) == Scan(lines[1..], next);
      assert DeclaredHeaders(lines) == b + c;
      AppendAssoc(a, b, c);
    }
  }

  /** `ParseVariables`: the variables declared before the first delimiter
      line, in declaration order. */
  function ParseVariables(text: string): (r: seq<Variable>)
    ensures Fresh(r)
    ensures Headers(r) == DeclaredHeaders(Split(text, '\n'))
  {
    ScanHeaders(Split(text, '\n'), []);
    Scan(Split(text, '\n'), [])
  }

  /** No later variable has the same name as `vars[i]`. */
  predicate LastOfName(vars: seq<Variable>, i: int)
    requires 0 <= i < |vars|
  {
    forall j :: i < j < |vars| ==> vars[j].name != vars[i].name
  }

  /** The names declared in `vars`. */
  function Names(vars: seq<Variable>): set<string> {
    set i | 0 <= i < |vars| :: vars[i].name
  }

  /** The names of a non-empty list: those before the last, and the last. */
  lemma NamesInit(vars: seq<Variable>)
    requires |vars| > 0
    ensures Names(vars) == Names(vars[..|vars| - 1]) + {vars[|vars| - 1].name}
  {
    var n := |vars| - 1;
    var init := vars[..n];
    forall k | k in Names(vars) ensures k in Names(init) + {vars[n].name} {
      var i :| 0 <= i < |vars| && vars[i].name == k;
      if i < n { assert init[i].name == k; }
    }
    forall k | k in Names(init) ensures k in Names(vars) {
      var i :| 0 <= i < n && init[i].name == k;
      assert vars[i].name == k;
    }
  }

  /** The last occurrence of a name before the last variable, other than
      the last variable's own name, is still last without it. */
  lemma LastOfNameInit(vars: seq<Variable>, i: int)
    requires 0 <= i < |vars| - 1 && LastOfName(vars, i)
    ensures LastOfName(vars[..|vars| - 1], i) && vars[i].name != vars[|vars| - 1].name
  {
  }

  /** Binding the last variable on top of the bindings of the others keeps
      every last occurrence bound to its value. */
  lemma VariablesToMapStep(vars: seq<Variable>, init: seq<Variable>, prev: map<string, Val>)
    requires |vars| > 0 && init == vars[..|vars| - 1]
    requires forall i :: 0 <= i < |init| && LastOfName(init, i) ==> init[i].name in prev && prev[init[i].name] == init[i].value
    ensures var m := prev[vars[|vars| - 1].name := vars[|vars| - 1].value];
      forall i :: 0 <= i < |vars| && LastOfName(vars, i) ==> vars[i].name in m && m[vars[i].name] == vars[i].value
  {
    var n := |vars| - 1;
    forall i | 0 <= i < n && LastOfName(vars, i) ensures init[i].name in prev && prev[init[i].name] == init[i].value {
      LastOfNameInit(vars, i);
    }
  }

  /** `VariablesToMap`: each name bound to the value of its last occurrence. */
  function VariablesToMap(vars: seq<Variable>): (m: map<string, Val>)
    ensures m.Keys == Names(vars)
    ensures forall i :: 0 <= i < |vars| && LastOfName(vars, i) ==> vars[i].name in m && m[vars[i].name] == vars[i].value
  {
    if |vars| == 0 then map[]
    else
      var n := |vars| - 1;
      var prev := VariablesToMap(vars[..n]);
      NamesInit(vars);
      VariablesToMapStep(vars, vars[..n], prev);
      prev[vars[n].name := vars[n].value]
  }

  /** The prompt widget `AskForVariables` picks for a declared type. */
  datatype Widget = TextInput | Confirm | SelectOne | SelectMany | NoWidget

  function WidgetFor(kind: string): (w: Widget)
    ensures w == NoWidget <==>
      kind !in {"text", "string", "number", "int", "integer", "bool", "boolean", "select", "multiselect"}
    ensures w in {SelectOne, SelectMany} <==> ModelTypes.IsSelectKind(kind)
    ensures w == TextInput <==> kind in {"text", "string", "number", "int", "integer"}
    ensures w == Confirm <==> kind == "bool" || kind == "boolean"
    ensures w == SelectMany <==> kind == "multiselect"
  {
    if kind == "text" || kind == "string" || kind == "number" || kind == "int" || kind == "integer" then TextInput
    else if kind == "bool" || kind == "boolean" then Confirm
    else if kind == "select" then SelectOne
    else if kind == "multiselect" then SelectMany
    else NoWidget
  }

  /** What a prompt widget hands back: the answer, or the error that ended it. */
  datatype Answer<T> = Answered(value: T) | Failed(err: string)

  /** The interactive user behind the four prompt widgets. Each widget gets
      the position of the variable being asked and the question shown. */
  datatype Oracle = Oracle(
    text: (nat, string) -> Answer<string>,
    confirm: (nat, string) -> Answer<bool>,
    selectOne: (nat, string, seq<string>) -> Answer<string>,
    selectMany: (nat, string, seq<string>) -> Answer<seq<string>>)

  /** The prompt label: the description when there is one, otherwise the name. */
  function Label(v: Variable): string {
    if v.description != "" then v.description else v.name
  }

  /** The question shown for a variable: its label and, after it, its type. */
  function Question(v: Variable): (q: string)
    ensures HasPrefix(q, Label(v))
    ensures |q| == |Label(v)| + |v.kind| + 3 && q[|q| - 1] == ')'
    ensures q[|Label(v)|..] == " (" + v.kind + ")"
  {
    Label(v) + " (" + v.kind + ")"
  }

  function Lift<T>(a: Answer<T>, wrap: T -> Val): Answer<Val> {
    match a
    case Answered(x) => Answered(wrap(x))
    case Failed(e) => Failed(e)
  }

  /** `a` passes on what a widget handed back: its error, or its answer as
      the value `x`. */
  predicate Relays<T>(a: Answer<Val>, b: Answer<T>, x: Val) {
    && (a.Failed? <==> b.Failed?)
    && (b.Failed? ==> a.err == b.err)
    && (a.Answered? ==> a.value == x)
  }

  /** Asks for the value of variable `i`. A type without a widget asks
      nothing and leaves the value nil; otherwise the widget of the type is
      shown the question (and, for a select, the options), and its error or
      its answer is what comes back. */
  function Prompt(v: Variable, i: nat, oracle: Oracle): (a: Answer<Val>)
    ensures WidgetFor(v.kind) == NoWidget ==> a == Answered(Nil)
    ensures a.Answered? && WidgetFor(v.kind) != NoWidget ==> a.value != Nil
    ensures a.Answered? && WidgetFor(v.kind) in {TextInput, SelectOne} ==> a.value.Str?
    ensures a.Answered? && WidgetFor(v.kind) == Confirm ==> a.value.Bool?
    ensures a.Answered? && WidgetFor(v.kind) == SelectMany ==> a.value.StrSlice?
    ensures WidgetFor(v.kind) == TextInput ==>
      var b := oracle.text(i, Question(v));
      Relays(a, b, if b.Answered? then Str(b.value) else Nil)
    ensures WidgetFor(v.kind) == Confirm ==>
      var b := oracle.confirm(i, Question(v));
      Relays(a, b, if b.Answered? then Bool(b.value) else Nil)
    ensures WidgetFor(v.kind) == SelectOne ==>
      var b := oracle.selectOne(i, Question(v), v.options);
      Relays(a, b, if b.Answered? then Str(b.value) else Nil)
    ensures WidgetFor(v.kind) == SelectMany ==>
      var b := oracle.selectMany(i, Question(v), v.options);
      Relays(a, b, if b.Answered? then StrSlice(b.value) else Nil)
  {
    match WidgetFor(v.kind)
    case TextInput => Lift(oracle.text(i, Question(v)), s => Str(s))
    case Confirm => Lift(oracle.confirm(i, Question(v)), b => Bool(b))
    case SelectOne => Lift(oracle.selectOne(i, Question(v), v.options), s => Str(s))
    case SelectMany => Lift(oracle.selectMany(i, Question(v), v.options), ss => StrSlice(ss))
    case NoWidget => Answered(Nil)
  }

  /** The result of the prompting loop. On an error the variables asked so
      far keep their answers (the loop writes into the caller's slice);
      `at` is the position of the variable whose prompt failed. */
  datatype AskOutcome =
    | Done(vars: seq<Variable>)
    | Aborted(vars: seq<Variable>, at: nat, err: string)

  /** The prompting loop from position `i` on. */
  function AskFrom(vars: seq<Variable>, i: nat, oracle: Oracle): (r: AskOutcome)
    requires i <= |vars|
    ensures |r.vars| == |vars|
    ensures forall j :: 0 <= j < |vars| ==> r.vars[j] == vars[j].(value := r.vars[j].value)
    ensures forall j :: 0 <= j < i ==> r.vars[j] == vars[j]
    ensures forall j :: 0 <= j < |vars| && vars[j].value != Nil ==> r.vars[j] == vars[j]
    ensures r.Aborted? ==>
      && i <= r.at < |vars|
      && vars[r.at].value == Nil
      && Prompt(vars[r.at], r.at, oracle) == Failed(r.err)
      && forall j :: r.at <= j < |vars| ==> r.vars[j] == vars[j]
    ensures forall j :: i <= j < |vars| && vars[j].value == Nil && (r.Done? || j < r.at) ==>
      Prompt(vars[j], j, oracle) == Answered(r.vars[j].value)
    decreases |vars| - i
  {
    if i == |vars| then Done(vars)
    else if vars[i].value != Nil then AskFrom(vars, i + 1, oracle)
    else
      match Prompt(vars[i], i, oracle)
      case Failed(e) => Aborted(vars, i, e)
      case Answered(x) =>
        var next := vars[i := vars[i].(value := x)];
        assert forall j :: 0 <= j < |vars| && j != i ==> next[j] == vars[j];
        AskFrom(next, i + 1, oracle)
  }

  /** `AskForVariables`: asks, in order, for every variable that has no value
      yet; the first widget error ends the loop and is returned. */
  function AskForVariables(vars: seq<Variable>, oracle: Oracle): (r: AskOutcome)
    ensures |r.vars| == |vars|
    ensures forall j :: 0 <= j < |vars| ==> HeaderOf(r.vars[j]) == HeaderOf(vars[j]) && r.vars[j].options == vars[j].options
    ensures forall j :: 0 <= j < |vars| && vars[j].value != Nil ==> r.vars[j] == vars[j]
    ensures r.Aborted? ==>
      && r.at < |vars|
      && vars[r.at].value == Nil
      && Prompt(vars[r.at], r.at, oracle) == Failed(r.err)
      && (forall j :: r.at <= j < |vars| ==> r.vars[j] == vars[j])
    ensures forall j :: 0 <= j < |vars| && vars[j].value == Nil && (r.Done? || j < r.at) ==>
      Prompt(vars[j], j, oracle) == Answered(r.vars[j].value)
    ensures r.Done? ==> forall j :: 0 <= j < |vars| ==> r.vars[j].value != Nil || WidgetFor(vars[j].kind) == NoWidget
  {
    AskFrom(vars, 0, oracle)
  }

  /** The separator `ParseTemplate` splits a document on. */
  const Separator := "\n---\n"

  /** Line ends normalised to LF. */
  function Normalize(doc: string): (r: string)
    ensures '\r' !in doc ==> r == doc
  {
    assert '\r' !in doc ==> !Contains(doc, "\r\n") by {
      if '\r' !in doc { NoCarriageReturn(doc); }
    }
    ReplaceAll(doc, "\r\n", "\n")
  }

  /** How `ParseTemplate` ends before it hands over to the template engines:
      with the environment and the body to render, with the error of a
      prompt, or with the out-of-range panic of a document that has no
      separator. */
  datatype TemplateOutcome =
    | Ready(env: map<string, Val>, body: string)
    | AskFailed(err: string)
    | MissingBody

  /** `ParseTemplate` up to the rendering step. */
  function ParseTemplate(doc: string, oracle: Oracle): (r: TemplateOutcome)
    ensures r.Ready? ==>
      var text := Normalize(doc);
      var k := |text| - |r.body| - |Separator|;
      && 0 <= k
      && text == text[..k] + Separator + r.body
      && forall i :: 0 <= i < k ==> !OccursAt(text, Separator, i)
    ensures r.MissingBody? ==> !Contains(Normalize(doc), Separator)
    ensures
      var asked := AskForVariables(ParseVariables(SplitN2(Normalize(doc), Separator)[0]), oracle);
      && (r.AskFailed? <==> asked.Aborted?)
      && (r.AskFailed? ==> asked.err == r.err)
  {
    var text := Normalize(doc);
    var parts := SplitN2(text, Separator);
    var asked := AskForVariables(ParseVariables(parts[0]), oracle);
    SplitN2First(text, Separator);
    if asked.Aborted? then AskFailed(asked.err)
    else if |parts| < 2 then MissingBody
    else Ready(VariablesToMap(asked.vars), parts[1])
  }
}
