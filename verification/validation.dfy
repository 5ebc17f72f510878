/** The validator of `pkg/model/validation.go`: every rule a variable can
    break, checked in a fixed order and all reported (not only the first),
    the error text of each, and the concatenation over a template. */
module Validation {
  import opened GoStrings
  import opened Values
  import opened ModelTypes

  /** One broken rule. The `got` fields carry the `%T` name of the offending
      value. The `Plain` problems are the wordings of the older validator. */
  datatype Problem =
    | TypeRequired
    | BoundsOnlyForNumber
    | RegexOnlyForText
    | MultilineOnlyForText
    | OptionsOnlyForSelect
    | DefaultNotNumber(got: string)
    | ValueNotNumber(got: string)
    | PlainValueNotNumber
    | MinAboveMax
    | ValueOutOfRange
    | DefaultNotString(got: string)
    | ValueNotText(got: string)
    | PlainValueNotText
    | InvalidRegex
    | RegexMismatch
    | ValueNotBoolean
    | OptionsRequired
    | SelectValueNotString
    | ValueNotInOptions
    | ValueNotStringOrSlice

  function Message(p: Problem): string {
    match p
    case TypeRequired => "type is required"
    case BoundsOnlyForNumber => "min and max are only applicable to number types"
    case RegexOnlyForText => "regex is only applicable to text types"
    case MultilineOnlyForText => "multiline is only applicable to text types"
    case OptionsOnlyForSelect => "options are only applicable to select and multiselect types"
    case DefaultNotNumber(got) => "default must be a number or nil, got " + got
    case ValueNotNumber(got) => "value must be a number, got " + got
    case PlainValueNotNumber => "value must be a number"
    case MinAboveMax => "min must be less than max"
    case ValueOutOfRange => "value must be between min and max"
    case DefaultNotString(got) => "default must be a string or nil, got " + got
    case ValueNotText(got) => "value must be a string, got " + got
    case PlainValueNotText => "value must be a string"
    case InvalidRegex => "invalid regex"
    case RegexMismatch => "value does not match regex"
    case ValueNotBoolean => "value must be a boolean"
    case OptionsRequired => "options are required"
    case SelectValueNotString => "value must be a string"
    case ValueNotInOptions => "value is not in options"
    case ValueNotStringOrSlice => "value must be a string or string slice"
  }

  /** Where a check stands in the order the checks run: the five generic
      checks first, then the checks of the variable's type. */
  function Rank(p: Problem): nat {
    match p
    case TypeRequired => 0
    case BoundsOnlyForNumber => 1
    case RegexOnlyForText => 2
    case MultilineOnlyForText => 3
    case OptionsOnlyForSelect => 4
    case DefaultNotNumber(_) => 10
    case ValueNotNumber(_) => 11
    case PlainValueNotNumber => 11
    case MinAboveMax => 12
    case ValueOutOfRange => 13
    case DefaultNotString(_) => 20
    case ValueNotText(_) => 21
    case PlainValueNotText => 21
    case InvalidRegex => 22
    case RegexMismatch => 23
    case ValueNotBoolean => 30
    case OptionsRequired => 40
    case SelectValueNotString => 41
    case ValueNotInOptions => 42
    case ValueNotStringOrSlice => 43
  }

  /** `p` is reported before `q`: an earlier check, or two missing items of
      one `[]string` value, the only problem that can repeat. */
  predicate Before(p: Problem, q: Problem) {
    Rank(p) < Rank(q) || (p == ValueNotInOptions && q == ValueNotInOptions)
  }

  predicate Ordered(ps: seq<Problem>) {
    forall i, j :: 0 <= i < j < |ps| ==> Before(ps[i], ps[j])
  }

  /** All ranks lie in `[lo, hi)`. */
  predicate RanksWithin(ps: seq<Problem>, lo: nat, hi: nat) {
    forall i :: 0 <= i < |ps| ==> lo <= Rank(ps[i]) < hi
  }

  lemma OrderedAppend(a: seq<Problem>, b: seq<Problem>, lo: nat, mid: nat, hi: nat)
    requires Ordered(a) && Ordered(b) && lo <= mid <= hi
    requires RanksWithin(a, lo, mid) && RanksWithin(b, mid, hi)
    ensures Ordered(a + b) && RanksWithin(a + b, lo, hi)
  {
    var ab := a + b;
    forall i | 0 <= i < |ab| ensures lo <= Rank(ab[i]) < hi {
      if i < |a| { assert ab[i] == a[i]; } else { assert ab[i] == b[i - |a|]; }
    }
    forall i, j | 0 <= i < j < |ab| ensures Before(ab[i], ab[j]) {
      if j < |a| {
        assert ab[i] == a[i] && ab[j] == a[j];
      } else if i >= |a| {
        assert ab[i] == b[i - |a|] && ab[j] == b[j - |a|];
      } else {
        assert ab[i] == a[i] && ab[j] == b[j - |a|];
      }
    }
  }

  lemma OrderedAppend3(a: seq<Problem>, b: seq<Problem>, c: seq<Problem>, lo: nat, m1: nat, m2: nat, hi: nat)
    requires Ordered(a) && Ordered(b) && Ordered(c) && lo <= m1 <= m2 <= hi
    requires RanksWithin(a, lo, m1) && RanksWithin(b, m1, m2) && RanksWithin(c, m2, hi)
    ensures Ordered(a + b + c) && RanksWithin(a + b + c, lo, hi)
  {
    OrderedAppend(a, b, lo, m1, m2);
    OrderedAppend(a + b, c, lo, m2, hi);
  }

  // ---------------------------------------------------------------------
  // What a variable is checked against
  // ---------------------------------------------------------------------

  /** Min or Max is set: either is non-zero. */
  predicate HasBounds(v: Variable) {
    v.min != 0.0 || v.max != 0.0
  }

  /** A value of one of the number types a `number` default may have. */
  predicate IsNumber(x: Val) {
    x.Float64? || x.OtherNumber?
  }

  /** The float64 the range check compares: a value that is not a float64
      leaves Go's zero value in place. */
  function NumberOf(x: Val): real {
    if x.Float64? then x.f else 0.0
  }

  /** The string the regex is matched against, likewise. */
  function TextOf(x: Val): string {
    if x.Str? then x.s else ""
  }

  /** The values the options offer; their names play no part. */
  function OptionValues(options: seq<Option>): set<Val> {
    set i | 0 <= i < |options| :: options[i].value
  }

  /** Positions of the items of a `[]string` value that no option offers. */
  function MissingIndices(items: seq<string>, options: seq<Option>): set<int> {
    set i | 0 <= i < |items| && Str(items[i]) !in OptionValues(options)
  }

  /** The rules, stated as a whole: the variable breaks none of them. */
  predicate Conforms(v: Variable, re: RegexEngine) {
    GenericRules(v) && KindRules(v, re)
  }

  /** The rules every variable obeys, whatever its type. */
  predicate GenericRules(v: Variable) {
    && v.kind != ""
    && (HasBounds(v) ==> v.kind == "number")
    && (v.regex != "" ==> v.kind == "text")
    && (v.multiline ==> v.kind == "text")
    && (|v.options| > 0 ==> IsSelectKind(v.kind))
  }

  /** The rules of the declared type. */
  predicate KindRules(v: Variable, re: RegexEngine) {
    match SectionOf(v.kind)
    case NumberChecks => NumberRules(v)
    case TextChecks => TextRules(v, re)
    case BooleanChecks => v.value == Nil || v.value.Bool?
    case SelectChecks => |v.options| > 0 && (v.value == Nil || v.value.Str?)
    case MultiselectChecks => |v.options| > 0 && MultiselectValueRule(v.value, v.options)
    case NoChecks => true
  }

  /** A number: numeric default and value, and a value within the bounds. */
  predicate NumberRules(v: Variable) {
    && (v.defaultValue == Nil || IsNumber(v.defaultValue))
    && (v.value == Nil || v.value.Float64?)
    && (HasBounds(v) ==> v.min <= v.max && (v.value != Nil ==> v.min <= NumberOf(v.value) <= v.max))
  }

  /** A text: string default and value, and a value the regex matches. */
  predicate TextRules(v: Variable, re: RegexEngine) {
    && (v.defaultValue == Nil || v.defaultValue.Str?)
    && (v.value == Nil || v.value.Str?)
    && (v.regex != "" && v.value != Nil ==> re.compiles(v.regex) && re.matches(v.regex, TextOf(v.value)))
  }

  /** A multiselect value: nil, or strings every one of which is on offer. */
  predicate MultiselectValueRule(x: Val, options: seq<Option>) {
    match x
    case Nil => true
    case Str(s) => Str(s) in OptionValues(options)
    case StrSlice(items) => forall i :: 0 <= i < |items| ==> Str(items[i]) in OptionValues(options)
    case _ => false
  }

  // ---------------------------------------------------------------------
  // Which rules a variable breaks, stated rule by rule
  // ---------------------------------------------------------------------

  predicate GenericViolation(v: Variable, p: Problem) {
    match p
    case TypeRequired => v.kind == ""
    case BoundsOnlyForNumber => HasBounds(v) && v.kind != "number"
    case RegexOnlyForText => v.regex != "" && v.kind != "text"
    case MultilineOnlyForText => v.multiline && v.kind != "text"
    case OptionsOnlyForSelect => |v.options| > 0 && !IsSelectKind(v.kind)
    case _ => false
  }

  predicate NumberViolation(v: Variable, p: Problem) {
    match p
    case DefaultNotNumber(got) =>
      v.defaultValue != Nil && !IsNumber(v.defaultValue) && got == TypeName(v.defaultValue)
    case ValueNotNumber(got) => v.value != Nil && !v.value.Float64? && got == TypeName(v.value)
    case MinAboveMax => HasBounds(v) && v.min > v.max
    case ValueOutOfRange => HasBounds(v) && v.value != Nil && !(v.min <= NumberOf(v.value) <= v.max)
    case _ => false
  }

  predicate TextViolation(v: Variable, re: RegexEngine, p: Problem) {
    match p
    case DefaultNotString(got) =>
      v.defaultValue != Nil && !v.defaultValue.Str? && got == TypeName(v.defaultValue)
    case ValueNotText(got) => v.value != Nil && !v.value.Str? && got == TypeName(v.value)
    case InvalidRegex => v.regex != "" && v.value != Nil && !re.compiles(v.regex)
    case RegexMismatch =>
      v.regex != "" && v.value != Nil && re.compiles(v.regex) && !re.matches(v.regex, TextOf(v.value))
    case _ => false
  }

  predicate BooleanViolation(v: Variable, p: Problem) {
    p == ValueNotBoolean && v.value != Nil && !v.value.Bool?
  }

  predicate SelectViolation(v: Variable, p: Problem) {
    match p
    case OptionsRequired => |v.options| == 0
    case SelectValueNotString => v.value != Nil && !v.value.Str?
    case _ => false
  }

  /** Some item of the value, a string or each string of a `[]string`, is
      offered by no option. */
  predicate SomeItemMissing(x: Val, options: seq<Option>) {
    match x
    case Str(s) => Str(s) !in OptionValues(options)
    case StrSlice(items) => |MissingIndices(items, options)| > 0
    case _ => false
  }

  predicate MultiselectViolation(v: Variable, p: Problem) {
    match p
    case OptionsRequired => |v.options| == 0
    case ValueNotInOptions => SomeItemMissing(v.value, v.options)
    case ValueNotStringOrSlice => v.value != Nil && !v.value.Str? && !v.value.StrSlice?
    case _ => false
  }

  /** The arm of the validator's `switch` on the declared type. */
  datatype Section = NumberChecks | TextChecks | BooleanChecks | SelectChecks | MultiselectChecks | NoChecks

  function SectionOf(kind: string): Section {
    if kind == "number" then NumberChecks
    else if kind == "text" then TextChecks
    else if kind == "boolean" then BooleanChecks
    else if kind == "select" then SelectChecks
    else if kind == "multiselect" then MultiselectChecks
    else NoChecks
  }

  predicate KindViolation(v: Variable, re: RegexEngine, p: Problem) {
    match SectionOf(v.kind)
    case NumberChecks => NumberViolation(v, p)
    case TextChecks => TextViolation(v, re, p)
    case BooleanChecks => BooleanViolation(v, p)
    case SelectChecks => SelectViolation(v, p)
    case MultiselectChecks => MultiselectViolation(v, p)
    case NoChecks => false
  }

  /** The variable breaks the rule `p` reports. */
  predicate Violation(v: Variable, re: RegexEngine, p: Problem) {
    GenericViolation(v, p) || KindViolation(v, re, p)
  }

  // ---------------------------------------------------------------------
  // The checks, in the order the source runs them
  // ---------------------------------------------------------------------

  function Check(b: bool, p: Problem): (ps: seq<Problem>)
    ensures |ps| <= 1
  {
    if b then [p] else []
  }

  lemma CheckOrdered(b: bool, p: Problem)
    ensures Ordered(Check(b, p)) && RanksWithin(Check(b, p), Rank(p), Rank(p) + 1)
  {
  }

  /** The five checks every variable goes through. */
  function GenericProblems(v: Variable): seq<Problem> {
    Check(v.kind == "", TypeRequired)
    + Check(HasBounds(v) && v.kind != "number", BoundsOnlyForNumber)
    + Check(v.regex != "" && v.kind != "text", RegexOnlyForText)
    + Check(v.multiline && v.kind != "text", MultilineOnlyForText)
    + Check(|v.options| > 0 && !IsSelectKind(v.kind), OptionsOnlyForSelect)
  }

  lemma GenericOrdered(v: Variable)
    ensures Ordered(GenericProblems(v)) && RanksWithin(GenericProblems(v), 0, 10)
  {
    GenericChecksOrdered(v.kind == "", HasBounds(v) && v.kind != "number", v.regex != "" && v.kind != "text",
      v.multiline && v.kind != "text", |v.options| > 0 && !IsSelectKind(v.kind));
  }

  /** The five generic checks, whatever their outcomes, report in order. */
  lemma GenericChecksOrdered(b1: bool, b2: bool, b3: bool, b4: bool, b5: bool)
    ensures
      var ps := Check(b1, TypeRequired) + Check(b2, BoundsOnlyForNumber) + Check(b3, RegexOnlyForText)
        + Check(b4, MultilineOnlyForText) + Check(b5, OptionsOnlyForSelect);
      Ordered(ps) && RanksWithin(ps, 0, 10)
  {
    var c1, c2, c3 := Check(b1, TypeRequired), Check(b2, BoundsOnlyForNumber), Check(b3, RegexOnlyForText);
    var c4, c5 := Check(b4, MultilineOnlyForText), Check(b5, OptionsOnlyForSelect);
    assert Ordered(c1 + c2 + c3) && RanksWithin(c1 + c2 + c3, 0, 3) by {
      CheckOrdered(b1, TypeRequired);
      CheckAfter(c1, 0, 1, b2, BoundsOnlyForNumber);
      CheckAfter(c1 + c2, 0, 2, b3, RegexOnlyForText);
    }
    CheckAfter(c1 + c2 + c3, 0, 3, b4, MultilineOnlyForText);
    CheckAfter(c1 + c2 + c3 + c4, 0, 4, b5, OptionsOnlyForSelect);
    RanksWiden(c1 + c2 + c3 + c4 + c5, 0, 5, 0, 10);
  }

  /** A check appended after problems of lower rank keeps the order. */
  lemma CheckAfter(s: seq<Problem>, lo: nat, mid: nat, b: bool, p: Problem)
    requires Ordered(s) && RanksWithin(s, lo, mid) && lo <= mid <= Rank(p)
    ensures Ordered(s + Check(b, p)) && RanksWithin(s + Check(b, p), lo, Rank(p) + 1)
  {
    CheckOrdered(b, p);
    RanksWiden(s, lo, mid, lo, Rank(p));
    OrderedAppend(s, Check(b, p), lo, Rank(p), Rank(p) + 1);
  }

  lemma GenericReported(v: Variable)
    ensures forall p :: p in GenericProblems(v) <==> GenericViolation(v, p)
  {
    var c1 := Check(v.kind == "", TypeRequired);
    var c2 := Check(HasBounds(v) && v.kind != "number", BoundsOnlyForNumber);
    var c3 := Check(v.regex != "" && v.kind != "text", RegexOnlyForText);
    var c4 := Check(v.multiline && v.kind != "text", MultilineOnlyForText);
    var c5 := Check(|v.options| > 0 && !IsSelectKind(v.kind), OptionsOnlyForSelect);
    assert GenericProblems(v) == c1 + c2 + c3 + c4 + c5;
    forall p ensures p in c1 + c2 + c3 + c4 + c5 <==> GenericViolation(v, p) {
      assert p in c1 + c2 + c3 + c4 + c5 <==> p in c1 || p in c2 || p in c3 || p in c4 || p in c5;
      match p
      case TypeRequired =>
      case BoundsOnlyForNumber =>
      case RegexOnlyForText =>
      case MultilineOnlyForText =>
      case OptionsOnlyForSelect =>
      case _ =>
    }
  }

  /** The range check of a number variable; the same in both validators. */
  function BoundsProblems(v: Variable): (ps: seq<Problem>)
    ensures MinAboveMax in ps <==> NumberViolation(v, MinAboveMax)
    ensures ValueOutOfRange in ps <==> NumberViolation(v, ValueOutOfRange)
    ensures forall p :: p in ps ==> p == MinAboveMax || p == ValueOutOfRange
  {
    if HasBounds(v) then
      Check(v.min > v.max, MinAboveMax)
      + Check(v.value != Nil && (NumberOf(v.value) < v.min || NumberOf(v.value) > v.max), ValueOutOfRange)
    else []
  }

  function NumberProblems(v: Variable): seq<Problem> {
    Check(v.defaultValue != Nil && !IsNumber(v.defaultValue), DefaultNotNumber(TypeName(v.defaultValue)))
    + Check(v.value != Nil && !v.value.Float64?, ValueNotNumber(TypeName(v.value)))
    + BoundsProblems(v)
  }

  lemma NumberOrdered(v: Variable)
    ensures Ordered(NumberProblems(v)) && RanksWithin(NumberProblems(v), 10, 20)
  {
    BoundsOrdered(v);
    RanksWiden(BoundsProblems(v), 12, 14, 12, 20);
    SectionOrdered(v.defaultValue != Nil && !IsNumber(v.defaultValue), DefaultNotNumber(TypeName(v.defaultValue)),
      v.value != Nil && !v.value.Float64?, ValueNotNumber(TypeName(v.value)), BoundsProblems(v), 10, 20);
  }

  /** A section that checks the default, then the value, then the rest. */
  lemma SectionOrdered(d: bool, p: Problem, x: bool, q: Problem, rest: seq<Problem>, lo: nat, hi: nat)
    requires Rank(p) == lo && Rank(q) == lo + 1 && lo + 2 <= hi
    requires Ordered(rest) && RanksWithin(rest, lo + 2, hi)
    ensures Ordered(Check(d, p) + Check(x, q) + rest) && RanksWithin(Check(d, p) + Check(x, q) + rest, lo, hi)
  {
    CheckOrdered(d, p);
    CheckOrdered(x, q);
    OrderedAppend3(Check(d, p), Check(x, q), rest, lo, lo + 1, lo + 2, hi);
  }

  lemma BoundsOrdered(v: Variable)
    ensures Ordered(BoundsProblems(v)) && RanksWithin(BoundsProblems(v), 12, 14)
  {
    if HasBounds(v) {
      var m := v.min > v.max;
      var r := v.value != Nil && (NumberOf(v.value) < v.min || NumberOf(v.value) > v.max);
      CheckOrdered(m, MinAboveMax);
      CheckOrdered(r, ValueOutOfRange);
      OrderedAppend(Check(m, MinAboveMax), Check(r, ValueOutOfRange), 12, 13, 14);
    }
  }

  lemma NumberReported(v: Variable)
    ensures forall p :: p in NumberProblems(v) <==> NumberViolation(v, p)
  {
    var a := Check(v.defaultValue != Nil && !IsNumber(v.defaultValue), DefaultNotNumber(TypeName(v.defaultValue)));
    var b := Check(v.value != Nil && !v.value.Float64?, ValueNotNumber(TypeName(v.value)));
    var c := BoundsProblems(v);
    assert NumberProblems(v) == a + b + c;
    forall p ensures p in a + b + c <==> NumberViolation(v, p) {
      assert p in a + b + c <==> p in a || p in b || p in c;
      match p
      case DefaultNotNumber(_) =>
      case ValueNotNumber(_) =>
      case MinAboveMax =>
      case ValueOutOfRange =>
      case _ =>
    }
  }

  /** The regex check of a text variable as the source writes it. After a
      failed compile the source still calls the match method on the nil
      pattern, which panics. */
  datatype RegexOutcome = Reports(problems: seq<Problem>) | Panics

  function RegexCheckAsWritten(v: Variable, re: RegexEngine): (r: RegexOutcome)
    ensures r.Panics? <==> v.regex != "" && v.value != Nil && !re.compiles(v.regex)
  {
    if v.regex != "" && v.value != Nil then
      if !re.compiles(v.regex) then Panics
      else if !re.matches(v.regex, TextOf(v.value)) then Reports([RegexMismatch])
      else Reports([])
    else Reports([])
  }

  /** The regex check as evidently intended: an invalid pattern is reported
      once and the match is skipped. */
  function RegexProblems(v: Variable, re: RegexEngine): (ps: seq<Problem>)
    ensures |ps| <= 1
    ensures InvalidRegex in ps <==> TextViolation(v, re, InvalidRegex)
    ensures RegexMismatch in ps <==> TextViolation(v, re, RegexMismatch)
    ensures forall p :: p in ps ==> p == InvalidRegex || p == RegexMismatch
  {
    if v.regex != "" && v.value != Nil then
      if !re.compiles(v.regex) then [InvalidRegex]
      else if !re.matches(v.regex, TextOf(v.value)) then [RegexMismatch]
      else []
    else []
  }

  /** When the pattern compiles (or the check is skipped), the regex check
      as written and as intended report the same. */
  lemma RegexCheckAgrees(v: Variable, re: RegexEngine)
    requires v.regex == "" || v.value == Nil || re.compiles(v.regex)
    ensures RegexCheckAsWritten(v, re) == Reports(RegexProblems(v, re))
  {
  }

  /** A text variable with a value and the pattern `(`, which Go's `regexp`
      rejects: the check as written dereferences the nil pattern, while the
      intended check reports `invalid regex` alone. */
  lemma RegexPanicWitness()
    ensures
      var v := Variable("name", "text", false, false, "", "", Str("x"), Nil, 0.0, 0.0, "(", []);
      var re := RegexEngine(pattern => pattern != "(", (pattern, text) => true);
      && RegexCheckAsWritten(v, re) == Panics
      && RegexProblems(v, re) == [InvalidRegex]
      && Problems(v, re) == [InvalidRegex]
  {
    var v := Variable("name", "text", false, false, "", "", Str("x"), Nil, 0.0, 0.0, "(", []);
    var re := RegexEngine(pattern => pattern != "(", (pattern, text) => true);
    assert GenericProblems(v) == [];
    assert KindProblems(v, re) == TextProblems(v, re);
  }

  function TextProblems(v: Variable, re: RegexEngine): seq<Problem> {
    Check(v.defaultValue != Nil && !v.defaultValue.Str?, DefaultNotString(TypeName(v.defaultValue)))
    + Check(v.value != Nil && !v.value.Str?, ValueNotText(TypeName(v.value)))
    + RegexProblems(v, re)
  }

  lemma RegexOrdered(v: Variable, re: RegexEngine)
    ensures Ordered(RegexProblems(v, re)) && RanksWithin(RegexProblems(v, re), 22, 24)
  {
    var c := RegexProblems(v, re);
    if |c| == 1 { assert c[0] in c; }
  }

  lemma TextOrdered(v: Variable, re: RegexEngine)
    ensures Ordered(TextProblems(v, re)) && RanksWithin(TextProblems(v, re), 20, 30)
  {
    var c := RegexProblems(v, re);
    RegexOrdered(v, re);
    RanksWiden(c, 22, 24, 22, 30);
    SectionOrdered(v.defaultValue != Nil && !v.defaultValue.Str?, DefaultNotString(TypeName(v.defaultValue)),
      v.value != Nil && !v.value.Str?, ValueNotText(TypeName(v.value)), c, 20, 30);
  }

  lemma TextReported(v: Variable, re: RegexEngine)
    ensures forall p :: p in TextProblems(v, re) <==> TextViolation(v, re, p)
  {
    var a := Check(v.defaultValue != Nil && !v.defaultValue.Str?, DefaultNotString(TypeName(v.defaultValue)));
    var b := Check(v.value != Nil && !v.value.Str?, ValueNotText(TypeName(v.value)));
    var c := RegexProblems(v, re);
    assert TextProblems(v, re) == a + b + c;
    forall p ensures p in a + b + c <==> TextViolation(v, re, p) {
      assert p in a + b + c <==> p in a || p in b || p in c;
      if p.DefaultNotString? {
        assert p !in b && p !in c;
      } else if p.ValueNotText? {
        assert p !in a && p !in c;
      } else {
        assert p !in a && p !in b;
      }
    }
  }

  function BooleanProblems(v: Variable): (ps: seq<Problem>)
    ensures forall p :: p in ps <==> BooleanViolation(v, p)
  {
    Check(v.value != Nil && !v.value.Bool?, ValueNotBoolean)
  }

  function SelectProblems(v: Variable): seq<Problem> {
    Check(|v.options| == 0, OptionsRequired)
    + Check(v.value != Nil && !v.value.Str?, SelectValueNotString)
  }

  lemma BooleanOrdered(v: Variable)
    ensures Ordered(BooleanProblems(v)) && RanksWithin(BooleanProblems(v), 30, 40)
  {
    CheckOrdered(v.value != Nil && !v.value.Bool?, ValueNotBoolean);
  }

  lemma SelectOrdered(v: Variable)
    ensures Ordered(SelectProblems(v)) && RanksWithin(SelectProblems(v), 40, 50)
  {
    var a := Check(|v.options| == 0, OptionsRequired);
    var b := Check(v.value != Nil && !v.value.Str?, SelectValueNotString);
    CheckOrdered(|v.options| == 0, OptionsRequired);
    CheckOrdered(v.value != Nil && !v.value.Str?, SelectValueNotString);
    OrderedAppend(a, b, 40, 41, 50);
  }

  lemma SelectReported(v: Variable)
    ensures forall p :: p in SelectProblems(v) <==> SelectViolation(v, p)
  {
  }

  /** The inner search loop: does some option offer `x`? */
  function InOptions(x: Val, options: seq<Option>): (found: bool)
    ensures found <==> x in OptionValues(options)
    decreases |options|
  {
    if |options| == 0 then false
    else if options[0].value == x then true
    else
      var found := InOptions(x, options[1..]);
      assert OptionValues(options) == {options[0].value} + OptionValues(options[1..]) by {
        forall y | y in OptionValues(options) ensures y in {options[0].value} + OptionValues(options[1..]) {
          var i :| 0 <= i < |options| && options[i].value == y;
          if i > 0 { assert options[1..][i - 1].value == y; }
        }
        forall y | y in OptionValues(options[1..]) ensures y in OptionValues(options) {
          var i :| 0 <= i < |options[1..]| && options[1..][i].value == y;
          assert options[i + 1].value == y;
        }
      }
      found
  }

  /** One `value is not in options` for each item of a `[]string` value that
      no option offers. */
  function MissingOptions(items: seq<string>, options: seq<Option>): (ps: seq<Problem>)
    ensures forall i :: 0 <= i < |ps| ==> ps[i] == ValueNotInOptions
    ensures |ps| == |MissingIndices(items, options)|
    decreases |items|
  {
    if |items| == 0 then []
    else
      var init := items[..|items| - 1];
      var last := items[|items| - 1];
      var ps := MissingOptions(init, options)
        + (if InOptions(Str(last), options) then [] else [ValueNotInOptions]);
      MissingIndicesSnoc(items, options);
      ps
  }

  lemma MissingIndicesSnoc(items: seq<string>, options: seq<Option>)
    requires |items| > 0
    ensures
      var n := |items| - 1;
      |MissingIndices(items, options)|
        == |MissingIndices(items[..n], options)| + Flag(Str(items[n]) !in OptionValues(options))
  {
    var n := |items| - 1;
    var all, init := MissingIndices(items, options), MissingIndices(items[..n], options);
    assert n !in init;
    if Str(items[n]) in OptionValues(options) {
      assert all == init;
    } else {
      assert all == init + {n};
    }
  }

  function Flag(b: bool): nat {
    if b then 1 else 0
  }

  /** The problems of the value of a multiselect variable: none for nil, one
      per string not on offer, and one for a value of any other type. */
  function MultiselectValueProblems(x: Val, options: seq<Option>): (ps: seq<Problem>)
    ensures ValueNotInOptions in ps <==> SomeItemMissing(x, options)
    ensures ValueNotStringOrSlice in ps <==> x != Nil && !x.Str? && !x.StrSlice?
    ensures forall p :: p in ps ==> p == ValueNotInOptions || p == ValueNotStringOrSlice
  {
    match x
    case Nil => []
    case Str(s) => Check(!InOptions(Str(s), options), ValueNotInOptions)
    case StrSlice(items) =>
      var ps := MissingOptions(items, options);
      assert |ps| > 0 ==> ps[0] in ps;
      ps
    case _ => [ValueNotStringOrSlice]
  }

  function MultiselectProblems(v: Variable): seq<Problem> {
    Check(|v.options| == 0, OptionsRequired) + MultiselectValueProblems(v.value, v.options)
  }

  lemma MultiselectOrdered(v: Variable)
    ensures Ordered(MultiselectProblems(v)) && RanksWithin(MultiselectProblems(v), 40, 50)
  {
    var a := Check(|v.options| == 0, OptionsRequired);
    var b := MultiselectValueProblems(v.value, v.options);
    CheckOrdered(|v.options| == 0, OptionsRequired);
    assert RanksWithin(b, 42, 50) by {
      forall i | 0 <= i < |b| ensures 42 <= Rank(b[i]) < 50 {
        assert b[i] in b;
      }
    }
    assert Ordered(b) by {
      forall i, j | 0 <= i < j < |b| ensures Before(b[i], b[j]) {
        assert b[i] in b && b[j] in b;
        if v.value.StrSlice? {
          assert b[i] == ValueNotInOptions && b[j] == ValueNotInOptions;
        }
      }
    }
    OrderedAppend(a, b, 40, 42, 50);
  }

  lemma MultiselectReported(v: Variable)
    ensures forall p :: p in MultiselectProblems(v) <==> MultiselectViolation(v, p)
  {
    var a := Check(|v.options| == 0, OptionsRequired);
    var b := MultiselectValueProblems(v.value, v.options);
    assert MultiselectProblems(v) == a + b;
    forall p ensures p in a + b <==> MultiselectViolation(v, p) {
      assert p in a + b <==> p in a || p in b;
      if p == OptionsRequired {
        assert p !in b;
      } else {
        assert p !in a;
      }
    }
  }

  /** The checks of the variable's own type. */
  function KindProblems(v: Variable, re: RegexEngine): seq<Problem> {
    match SectionOf(v.kind)
    case NumberChecks => NumberProblems(v)
    case TextChecks => TextProblems(v, re)
    case BooleanChecks => BooleanProblems(v)
    case SelectChecks => SelectProblems(v)
    case MultiselectChecks => MultiselectProblems(v)
    case NoChecks => []
  }

  lemma KindOrdered(v: Variable, re: RegexEngine)
    ensures Ordered(KindProblems(v, re)) && RanksWithin(KindProblems(v, re), 10, 50)
    ensures SectionOf(v.kind) != NumberChecks && SectionOf(v.kind) != TextChecks ==> RanksWithin(KindProblems(v, re), 30, 50)
  {
    var ps := KindProblems(v, re);
    match SectionOf(v.kind)
    case NumberChecks =>
      assert ps == NumberProblems(v);
      NumberOrdered(v);
      RanksWiden(ps, 10, 20, 10, 50);
    case TextChecks =>
      assert ps == TextProblems(v, re);
      TextOrdered(v, re);
      RanksWiden(ps, 20, 30, 10, 50);
    case BooleanChecks =>
      assert ps == BooleanProblems(v);
      BooleanOrdered(v);
      RanksWiden(ps, 30, 40, 30, 50);
      RanksWiden(ps, 30, 50, 10, 50);
    case SelectChecks =>
      assert ps == SelectProblems(v);
      SelectOrdered(v);
      RanksWiden(ps, 40, 50, 30, 50);
      RanksWiden(ps, 30, 50, 10, 50);
    case MultiselectChecks =>
      assert ps == MultiselectProblems(v);
      MultiselectOrdered(v);
      RanksWiden(ps, 40, 50, 30, 50);
      RanksWiden(ps, 30, 50, 10, 50);
    case NoChecks =>
      assert ps == [];
  }

  lemma RanksWiden(ps: seq<Problem>, lo: nat, hi: nat, lo': nat, hi': nat)
    requires RanksWithin(ps, lo, hi) && lo' <= lo && hi <= hi'
    ensures RanksWithin(ps, lo', hi')
  {
  }

  lemma KindReported(v: Variable, re: RegexEngine)
    ensures forall p :: p in KindProblems(v, re) <==> KindViolation(v, re, p)
  {
    if SectionOf(v.kind) == NumberChecks { NumberReported(v); }
    else if SectionOf(v.kind) == TextChecks { TextReported(v, re); }
    else if SectionOf(v.kind) == SelectChecks { SelectReported(v); }
    else if SectionOf(v.kind) == MultiselectChecks { MultiselectReported(v); }
  }

  /** Every problem of a variable, in the order the checks run. */
  function Problems(v: Variable, re: RegexEngine): (ps: seq<Problem>)
    ensures ps == [] <==> Conforms(v, re)
  {
    var r := GenericProblems(v) + KindProblems(v, re);
    GenericReported(v);
    KindReported(v, re);
    ViolationsIff(v, re);
    assert r != [] ==> r[0] in r;
    r
  }

  /** The problems come in the order the checks run, and only a missing
      item of a `[]string` value is reported more than once. */
  lemma ProblemsOrdered(v: Variable, re: RegexEngine)
    ensures Ordered(Problems(v, re))
  {
    GenericOrdered(v);
    KindOrdered(v, re);
    OrderedAppend(GenericProblems(v), KindProblems(v, re), 0, 10, 50);
  }

  /** A problem is reported exactly when its rule is broken. */
  lemma ProblemsReported(v: Variable, re: RegexEngine)
    ensures forall p :: p in Problems(v, re) <==> Violation(v, re, p)
  {
    GenericReported(v);
    KindReported(v, re);
  }

  /** Some item of a multiselect value is missing exactly when the value
      does not conform. */
  lemma SomeItemMissingIff(x: Val, options: seq<Option>)
    requires x.Str? || x.StrSlice?
    ensures SomeItemMissing(x, options) <==> !MultiselectValueRule(x, options)
  {
    if x.StrSlice? {
      var missing := MissingIndices(x.items, options);
      if |missing| > 0 {
        var i :| i in missing;
        assert 0 <= i < |x.items| && Str(x.items[i]) !in OptionValues(options);
      }
      if exists i :: 0 <= i < |x.items| && Str(x.items[i]) !in OptionValues(options) {
        var i :| 0 <= i < |x.items| && Str(x.items[i]) !in OptionValues(options);
        assert i in missing;
      }
    }
  }

  /** A variable that obeys every rule breaks none of them one by one. */
  lemma ConformsNoViolation(v: Variable, re: RegexEngine, p: Problem)
    requires Conforms(v, re)
    ensures !Violation(v, re, p)
  {
    if SectionOf(v.kind) == MultiselectChecks && (v.value.Str? || v.value.StrSlice?) {
      SomeItemMissingIff(v.value, v.options);
    }
  }

  /** A variable that does not obey the rules breaks a particular one. */
  lemma ViolationWitness(v: Variable, re: RegexEngine) returns (p: Problem)
    requires !Conforms(v, re)
    ensures Violation(v, re, p)
  {
    if !GenericRules(v) {
      p := GenericWitness(v);
    } else {
      match SectionOf(v.kind)
      case NumberChecks => p := NumberWitness(v);
      case TextChecks => p := TextWitness(v, re);
      case BooleanChecks => p := ValueNotBoolean;
      case SelectChecks =>
        p := if |v.options| == 0 then OptionsRequired else SelectValueNotString;
      case MultiselectChecks => p := MultiselectWitness(v);
    }
  }

  lemma GenericWitness(v: Variable) returns (p: Problem)
    requires !GenericRules(v)
    ensures GenericViolation(v, p)
  {
    if v.kind == "" {
      p := TypeRequired;
    } else if HasBounds(v) && v.kind != "number" {
      p := BoundsOnlyForNumber;
    } else if v.regex != "" && v.kind != "text" {
      p := RegexOnlyForText;
    } else if v.multiline && v.kind != "text" {
      p := MultilineOnlyForText;
    } else {
      p := OptionsOnlyForSelect;
    }
  }

  lemma NumberWitness(v: Variable) returns (p: Problem)
    requires !NumberRules(v)
    ensures NumberViolation(v, p)
  {
    if v.defaultValue != Nil && !IsNumber(v.defaultValue) {
      p := DefaultNotNumber(TypeName(v.defaultValue));
    } else if v.value != Nil && !v.value.Float64? {
      p := ValueNotNumber(TypeName(v.value));
    } else if v.min > v.max {
      p := MinAboveMax;
    } else {
      p := ValueOutOfRange;
    }
  }

  lemma TextWitness(v: Variable, re: RegexEngine) returns (p: Problem)
    requires !TextRules(v, re)
    ensures TextViolation(v, re, p)
  {
    if v.defaultValue != Nil && !v.defaultValue.Str? {
      p := DefaultNotString(TypeName(v.defaultValue));
    } else if v.value != Nil && !v.value.Str? {
      p := ValueNotText(TypeName(v.value));
    } else if !re.compiles(v.regex) {
      p := InvalidRegex;
    } else {
      p := RegexMismatch;
    }
  }

  lemma MultiselectWitness(v: Variable) returns (p: Problem)
    requires !(|v.options| > 0 && MultiselectValueRule(v.value, v.options))
    ensures MultiselectViolation(v, p)
  {
    if |v.options| == 0 {
      p := OptionsRequired;
    } else if v.value.Str? || v.value.StrSlice? {
      SomeItemMissingIff(v.value, v.options);
      p := ValueNotInOptions;
    } else {
      p := ValueNotStringOrSlice;
    }
  }

  /** The rules stated problem by problem say the same as the rules stated
      as a whole. */
  lemma ViolationsIff(v: Variable, re: RegexEngine)
    ensures (forall p :: !Violation(v, re, p)) <==> Conforms(v, re)
  {
    if Conforms(v, re) {
      forall p ensures !Violation(v, re, p) {
        ConformsNoViolation(v, re, p);
      }
    } else {
      var p := ViolationWitness(v, re);
    }
  }

  // ---------------------------------------------------------------------
  // Error texts
  // ---------------------------------------------------------------------

  /** The text of an error about the variable `name`. */
  function NewValidationError(name: string, message: string): (e: string)
    ensures HasPrefix(e, "variable ")
    ensures |e| == |name| + |message| + 11
  {
    "variable " + name + ": " + message
  }

  /** An error text read back: the variable it names and the message. */
  datatype Attribution = Attributed(name: string, message: string) | Unattributed

  function ParseValidationError(e: string): (r: Attribution)
    ensures r.Attributed? ==> e == NewValidationError(r.name, r.message)
  {
    if HasPrefix(e, "variable ") then
      var parts := SplitN2(e[9..], ": ");
      if |parts| == 2 then Attributed(parts[0], parts[1]) else Unattributed
    else Unattributed
  }

  /** The variable's name and the message can be read back from the error
      text, as long as the name holds no colon. */
  lemma ParseNewValidationError(name: string, message: string)
    requires ':' !in name
    ensures ParseValidationError(NewValidationError(name, message)) == Attributed(name, message)
  {
    var e := NewValidationError(name, message);
    assert e[9..] == name + ": " + message;
    forall i | 0 <= i < |name| ensures !OccursAt(name + ": " + message, ": ", i) {
      assert (name + ": " + message)[i] == name[i];
    }
    SplitN2At(name, ": ", message);
  }

  /** The error texts for a list of problems, in the same order. */
  function Errors(name: string, ps: seq<Problem>): (es: seq<string>)
    ensures |es| == |ps|
    ensures forall i :: 0 <= i < |ps| ==> es[i] == NewValidationError(name, Message(ps[i]))
  {
    if |ps| == 0 then [] else [NewValidationError(name, Message(ps[0]))] + Errors(name, ps[1..])
  }

  /** `Variable.Validate`: one error per problem, in the order the checks
      run; the empty list stands for Go's nil. */
  function Validate(v: Variable, re: RegexEngine): (es: seq<string>)
    ensures |es| == |Problems(v, re)|
    ensures forall i :: 0 <= i < |es| ==>
      es[i] == NewValidationError(v.name, Message(Problems(v, re)[i]))
    ensures es == [] <==> Conforms(v, re)
  {
    Errors(v.name, Problems(v, re))
  }

  /** The errors of a list of variables, one variable after another. */
  function ErrorsOf(vs: seq<Variable>, validate: Variable -> seq<string>): (es: seq<string>)
    ensures es == [] <==> forall i :: 0 <= i < |vs| ==> validate(vs[i]) == []
  {
    if |vs| == 0 then [] else validate(vs[0]) + ErrorsOf(vs[1..], validate)
  }

  lemma {:induction false} ErrorsOfAppend(a: seq<Variable>, b: seq<Variable>, validate: Variable -> seq<string>)
    ensures ErrorsOf(a + b, validate) == ErrorsOf(a, validate) + ErrorsOf(b, validate)
    decreases |a|
  {
    if |a| == 0 {
      assert a + b == b;
    } else {
      assert (a + b)[0] == a[0];
      assert (a + b)[1..] == a[1..] + b;
      ErrorsOfAppend(a[1..], b, validate);
      var x, y, z := validate(a[0]), ErrorsOf(a[1..], validate), ErrorsOf(b, validate);
      assert x + (y + z) == x + y + z;
    }
  }

  lemma ErrorsOfOne(v: Variable, validate: Variable -> seq<string>)
    ensures ErrorsOf([v], validate) == validate(v)
  {
    assert [v][1..] == [];
  }

  /** Every variable's errors stand in the concatenation in declaration
      order: after those of the variables before it and before those of the
      variables after it. */
  lemma ErrorsOfAt(vs: seq<Variable>, i: nat, validate: Variable -> seq<string>)
    requires i < |vs|
    ensures ErrorsOf(vs, validate)
      == ErrorsOf(vs[..i], validate) + validate(vs[i]) + ErrorsOf(vs[i + 1..], validate)
  {
    var a, b := vs[..i], vs[i + 1..];
    assert vs == a + [vs[i]] + b;
    ErrorsOfAppend(a + [vs[i]], b, validate);
    ErrorsOfAppend(a, [vs[i]], validate);
    ErrorsOfOne(vs[i], validate);
  }

  const TemplateRequired := "template is required"

  /** `Template.Validate` with a given validator for the variables: the
      missing body first, then every variable's errors in declaration
      order. The structures are not validated. */
  function TemplateErrorsWith(t: Template, validate: Variable -> seq<string>): (es: seq<string>)
    ensures es == [] <==> t.content != "" && forall i :: 0 <= i < |t.variables| ==> validate(t.variables[i]) == []
    ensures |es| > 0 && es[0] == TemplateRequired <== t.content == ""
    ensures es == (if t.content == "" then [TemplateRequired] else []) + ErrorsOf(t.variables, validate)
  {
    (if t.content == "" then [TemplateRequired] else []) + ErrorsOf(t.variables, validate)
  }

  /** `Variable.Validate` as a function value, to validate every variable of a template. */
  function Validator(re: RegexEngine): Variable -> seq<string> {
    v => Validate(v, re)
  }

  function TemplateErrors(t: Template, re: RegexEngine): (es: seq<string>)
    ensures es == [] <==> t.content != "" && forall i :: 0 <= i < |t.variables| ==> Conforms(t.variables[i], re)
    ensures es == (if t.content == "" then [TemplateRequired] else []) + ErrorsOf(t.variables, Validator(re))
  {
    var validate := Validator(re);
    var es := TemplateErrorsWith(t, validate);
    assert forall i :: 0 <= i < |t.variables| ==> (validate(t.variables[i]) == [] <==> Conforms(t.variables[i], re));
    es
  }
}
