/** The records of `pkg/model/model.go`: a template with its variables, a
    variable with its constraints, and the options of a select variable. */
module ModelTypes {
  import opened Values

  /** An option of a select or multiselect variable. Membership is decided
      on `value` alone. */
  datatype Option = Option(name: string, value: Val)

  /** The types whose declarations take options: `select` and `multiselect`. */
  predicate IsSelectKind(kind: string) {
    kind == "select" || kind == "multiselect"
  }

  /** A variable as a template declares it. Go's float64 `Min` and `Max` are
      only ever compared, so they are reals here. */
  datatype Variable = Variable(
    name: string,
    kind: string,
    isArray: bool,
    multiline: bool,
    description: string,
    condition: string,
    value: Val,
    defaultValue: Val,
    min: real,
    max: real,
    regex: string,
    options: seq<Option>)

  /** A template: reusable structures, the variables, and the text to render. */
  datatype Template = Template(
    structures: map<string, seq<Variable>>,
    variables: seq<Variable>,
    content: string)

  /** What the validators need from Go's `regexp` package: whether a pattern
      compiles, and whether a compiled pattern matches a text. */
  datatype RegexEngine = RegexEngine(
    compiles: string -> bool,
    matches: (string, string) -> bool)
}
