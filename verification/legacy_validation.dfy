/** The older copy of the validator in `pkg/model/model.go`. It runs the
    same checks in the same order, but ignores the default value and words
    the type errors of a value without the `%T` name. It is stated here
    through its differences from the canonical validator. */
module LegacyValidation {
  import opened GoStrings
  import opened Values
  import opened ModelTypes
  import opened Validation

  /** The checks of a number variable: the value, then the range. */
  function LegacyNumberProblems(v: Variable): seq<Problem> {
    Check(v.value != Nil && !v.value.Float64?, PlainValueNotNumber) + BoundsProblems(v)
  }

  /** The checks of a text variable: the value, then the regex. */
  function LegacyTextProblems(v: Variable, re: RegexEngine): seq<Problem> {
    Check(v.value != Nil && !v.value.Str?, PlainValueNotText) + RegexProblems(v, re)
  }

  function LegacyKindProblems(v: Variable, re: RegexEngine): seq<Problem> {
    match SectionOf(v.kind)
    case NumberChecks => LegacyNumberProblems(v)
    case TextChecks => LegacyTextProblems(v, re)
    case BooleanChecks => BooleanProblems(v)
    case SelectChecks => SelectProblems(v)
    case MultiselectChecks => MultiselectProblems(v)
    case NoChecks => []
  }

  function LegacyProblems(v: Variable, re: RegexEngine): seq<Problem> {
    GenericProblems(v) + LegacyKindProblems(v, re)
  }

  /** The older `Variable.Validate`. */
  function LegacyValidate(v: Variable, re: RegexEngine): (es: seq<string>)
    ensures |es| == |LegacyProblems(v, re)|
    ensures forall i :: 0 <= i < |es| ==>
      es[i] == NewValidationError(v.name, Message(LegacyProblems(v, re)[i]))
  {
    Errors(v.name, LegacyProblems(v, re))
  }

  /** The older `Variable.Validate` as a function value. */
  function LegacyValidator(re: RegexEngine): Variable -> seq<string> {
    v => LegacyValidate(v, re)
  }

  /** The older `Template.Validate`. */
  function LegacyTemplateErrors(t: Template, re: RegexEngine): (es: seq<string>)
    ensures es == [] <==>
      t.content != "" && forall i :: 0 <= i < |t.variables| ==> LegacyProblems(t.variables[i], re) == []
    ensures es == (if t.content == "" then [TemplateRequired] else []) + ErrorsOf(t.variables, LegacyValidator(re))
  {
    TemplateErrorsWith(t, LegacyValidator(re))
  }

  // ---------------------------------------------------------------------
  // How the two validators differ
  // ---------------------------------------------------------------------

  /** A problem as the older validator words it, or nothing for the default
      checks it does not have. */
  function Plain(p: Problem): seq<Problem> {
    match p
    case DefaultNotNumber(_) => []
    case DefaultNotString(_) => []
    case ValueNotNumber(_) => [PlainValueNotNumber]
    case ValueNotText(_) => [PlainValueNotText]
    case _ => [p]
  }

  function PlainAll(ps: seq<Problem>): seq<Problem> {
    if |ps| == 0 then [] else Plain(ps[0]) + PlainAll(ps[1..])
  }

  lemma {:induction false} PlainAllAppend(a: seq<Problem>, b: seq<Problem>)
    ensures PlainAll(a + b) == PlainAll(a) + PlainAll(b)
    decreases |a|
  {
    if |a| == 0 {
      assert a + b == b;
    } else {
      assert (a + b)[0] == a[0];
      assert (a + b)[1..] == a[1..] + b;
      PlainAllAppend(a[1..], b);
      AppendAssoc(Plain(a[0]), PlainAll(a[1..]), PlainAll(b));
    }
  }

  /** A list without default checks or `%T` wordings is its own plain form. */
  lemma {:induction false} PlainAllKeeps(ps: seq<Problem>)
    requires forall i :: 0 <= i < |ps| ==> Plain(ps[i]) == [ps[i]]
    ensures PlainAll(ps) == ps
    decreases |ps|
  {
    if |ps| > 0 {
      PlainAllKeeps(ps[1..]);
    }
  }

  lemma PlainCheck(b: bool, p: Problem)
    ensures PlainAll(Check(b, p)) == if b then Plain(p) else []
  {
    if b {
      assert Check(b, p)[1..] == [];
    }
  }

  /** Problems outside the default and value checks of the number and text
      sections keep their wording. */
  lemma PlainKeepsRanks(ps: seq<Problem>, lo: nat, hi: nat)
    requires RanksWithin(ps, lo, hi)
    requires hi <= 10 || (12 <= lo && hi <= 20) || (22 <= lo && hi <= 30) || 30 <= lo
    ensures PlainAll(ps) == ps
  {
    forall i | 0 <= i < |ps| ensures Plain(ps[i]) == [ps[i]] {
      assert lo <= Rank(ps[i]) < hi;
    }
    PlainAllKeeps(ps);
  }

  /** The plain form of a section of three checks whose first is a default
      check and whose second is a value check. */
  lemma PlainSection(a: seq<Problem>, b: seq<Problem>, c: seq<Problem>, b': seq<Problem>)
    requires PlainAll(a) == [] && PlainAll(b) == b' && PlainAll(c) == c
    ensures PlainAll(a + b + c) == b' + c
  {
    PlainAllAppend(a + b, c);
    PlainAllAppend(a, b);
    assert [] + b' == b';
  }

  /** The plain form of a section that checks the default, then the value,
      then the rest. */
  lemma PlainChecks(d: bool, p: Problem, x: bool, q: Problem, q': Problem, rest: seq<Problem>)
    requires Plain(p) == [] && Plain(q) == [q'] && PlainAll(rest) == rest
    ensures PlainAll(Check(d, p) + Check(x, q) + rest) == Check(x, q') + rest
  {
    PlainCheck(d, p);
    PlainCheck(x, q);
    PlainSection(Check(d, p), Check(x, q), rest, Check(x, q'));
  }

  lemma PlainNumber(v: Variable)
    ensures PlainAll(NumberProblems(v)) == LegacyNumberProblems(v)
  {
    BoundsOrdered(v);
    PlainKeepsRanks(BoundsProblems(v), 12, 14);
    PlainChecks(v.defaultValue != Nil && !IsNumber(v.defaultValue), DefaultNotNumber(TypeName(v.defaultValue)),
      v.value != Nil && !v.value.Float64?, ValueNotNumber(TypeName(v.value)), PlainValueNotNumber, BoundsProblems(v));
  }

  lemma PlainText(v: Variable, re: RegexEngine)
    ensures PlainAll(TextProblems(v, re)) == LegacyTextProblems(v, re)
  {
    var c := RegexProblems(v, re);
    RegexOrdered(v, re);
    PlainKeepsRanks(c, 22, 24);
    PlainChecks(v.defaultValue != Nil && !v.defaultValue.Str?, DefaultNotString(TypeName(v.defaultValue)),
      v.value != Nil && !v.value.Str?, ValueNotText(TypeName(v.value)), PlainValueNotText, c);
  }

  lemma PlainKind(v: Variable, re: RegexEngine)
    ensures PlainAll(KindProblems(v, re)) == LegacyKindProblems(v, re)
  {
    if SectionOf(v.kind) == NumberChecks {
      PlainNumber(v);
    } else if SectionOf(v.kind) == TextChecks {
      PlainText(v, re);
    } else {
      KindOrdered(v, re);
      PlainKeepsRanks(KindProblems(v, re), 30, 50);
    }
  }

  /** The older validator reports the problems of the canonical one, less
      the default checks and with the plain wording, in the same order. */
  lemma LegacyIsPlain(v: Variable, re: RegexEngine)
    ensures LegacyProblems(v, re) == PlainAll(Problems(v, re))
  {
    var a, b := GenericProblems(v), KindProblems(v, re);
    assert Problems(v, re) == a + b;
    PlainAllAppend(a, b);
    GenericOrdered(v);
    PlainKeepsRanks(a, 0, 10);
    PlainKind(v, re);
  }

  /** Plain wording keeps a problem's place in the order. */
  lemma PlainRank(p: Problem)
    ensures |Plain(p)| <= 1
    ensures forall x :: x in Plain(p) ==>
      Rank(x) == Rank(p) && (x == ValueNotInOptions <==> p == ValueNotInOptions)
  {
  }

  /** What precedes every problem of a list precedes every problem of its
      plain form, in plain wording too. */
  lemma {:induction false} PlainAllAfter(p: Problem, x: Problem, ps: seq<Problem>)
    requires x in Plain(p)
    requires forall k :: 0 <= k < |ps| ==> Before(p, ps[k])
    ensures forall j :: 0 <= j < |PlainAll(ps)| ==> Before(x, PlainAll(ps)[j])
    decreases |ps|
  {
    if |ps| > 0 {
      PlainRank(p);
      PlainRank(ps[0]);
      PlainAllAfter(p, x, ps[1..]);
      var h, t := Plain(ps[0]), PlainAll(ps[1..]);
      var r := PlainAll(ps);
      assert r == h + t;
      forall j | 0 <= j < |r| ensures Before(x, r[j]) {
        if j < |h| {
          assert r[j] in Plain(ps[0]);
        } else {
          assert r[j] == t[j - |h|];
        }
      }
    }
  }

  /** The plain form of a list in check order is in check order. */
  lemma {:induction false} PlainAllOrdered(ps: seq<Problem>)
    requires Ordered(ps)
    ensures Ordered(PlainAll(ps))
    decreases |ps|
  {
    if |ps| > 0 {
      assert Ordered(ps[1..]) by {
        forall i, j | 0 <= i < j < |ps| - 1 ensures Before(ps[1..][i], ps[1..][j]) {
          assert ps[1..][i] == ps[i + 1] && ps[1..][j] == ps[j + 1];
        }
      }
      PlainAllOrdered(ps[1..]);
      var h, t := Plain(ps[0]), PlainAll(ps[1..]);
      PlainRank(ps[0]);
      if |h| == 1 {
        assert forall k :: 0 <= k < |ps[1..]| ==> ps[1..][k] == ps[k + 1];
        PlainAllAfter(ps[0], h[0], ps[1..]);
      }
      var r := PlainAll(ps);
      assert r == h + t;
      forall i, j | 0 <= i < j < |r| ensures Before(r[i], r[j]) {
        if i < |h| {
          assert r[i] == h[0] && r[j] == t[j - |h|];
        } else {
          assert r[i] == t[i - |h|] && r[j] == t[j - |h|];
        }
      }
    }
  }

  /** The older checks also report in source order. */
  lemma LegacyOrdered(v: Variable, re: RegexEngine)
    ensures Ordered(LegacyProblems(v, re))
  {
    LegacyIsPlain(v, re);
    ProblemsOrdered(v, re);
    PlainAllOrdered(Problems(v, re));
  }

  /** The default value plays no part in the older validator. */
  lemma LegacyIgnoresDefault(v: Variable, re: RegexEngine, d: Val)
    ensures LegacyProblems(v.(defaultValue := d), re) == LegacyProblems(v, re)
  {
    var w := v.(defaultValue := d);
    assert GenericProblems(w) == GenericProblems(v);
    if SectionOf(v.kind) == NumberChecks {
      assert BoundsProblems(w) == BoundsProblems(v);
      assert LegacyNumberProblems(w) == LegacyNumberProblems(v);
    } else if SectionOf(v.kind) == TextChecks {
      assert RegexProblems(w, re) == RegexProblems(v, re);
      assert LegacyTextProblems(w, re) == LegacyTextProblems(v, re);
    } else if SectionOf(v.kind) == BooleanChecks {
      assert BooleanProblems(w) == BooleanProblems(v);
    } else if SectionOf(v.kind) == SelectChecks {
      assert SelectProblems(w) == SelectProblems(v);
    } else if SectionOf(v.kind) == MultiselectChecks {
      assert MultiselectProblems(w) == MultiselectProblems(v);
    }
  }

  /** Whatever passes the canonical validator passes the older one. */
  lemma CanonicalIsStricter(t: Template, re: RegexEngine)
    ensures TemplateErrors(t, re) == [] ==> LegacyTemplateErrors(t, re) == []
  {
    if TemplateErrors(t, re) == [] {
      forall i | 0 <= i < |t.variables| ensures LegacyProblems(t.variables[i], re) == [] {
        LegacyIsPlain(t.variables[i], re);
      }
    }
  }

  /** A number variable with a string default: the older validator accepts
      it, the canonical one reports the default. */
  lemma DefaultWitness()
    ensures
      var v := Variable("n", "number", false, false, "", "", Nil, Str("1"), 0.0, 0.0, "", []);
      var re := RegexEngine(pattern => true, (pattern, text) => true);
      && LegacyProblems(v, re) == []
      && Problems(v, re) == [DefaultNotNumber("string")]
  {
    var v := Variable("n", "number", false, false, "", "", Nil, Str("1"), 0.0, 0.0, "", []);
    var re := RegexEngine(pattern => true, (pattern, text) => true);
    assert GenericProblems(v) == [];
    assert NumberProblems(v) == [DefaultNotNumber("string")];
  }
}
