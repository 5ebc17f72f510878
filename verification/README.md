# gttp: the declaration parser and the template validator

gttp is a command-line tool that fills in text templates. This project is a Dafny model of its two self-contained parts, with proofs about them.

**The declaration parser** (`pkg/parser/parser.go`).
- `ParseVariables` reads the head of a template document line by line:
  - `$name: type // description` declares a variable;
  - `- option` adds an option to the latest `select` or `multiselect` variable;
  - a line whose trimmed text is `---` ends the head.
- `ParseTemplate` normalises CRLF line ends and splits the document at the first `\n---\n`.
- `VariablesToMap` builds the name-to-value environment.
- `AskForVariables` prompts for every variable that has no value yet.

The scanner is a fold (`Parser.Scan`) over the lines of the head. The prompt widgets are replaced by an oracle: a datatype of four functions, one per widget. Each gets the position of the variable and the question, and returns an answer or an error.

**The validator** (`pkg/model/validation.go`, on the records of `pkg/model/model.go`).
- `Variable.Validate` runs a fixed sequence of checks and reports every broken rule, not only the first.
- `Template.Validate` concatenates the variables' errors after a missing-body error.

Each broken rule is a `Problem`, and `Message` gives its exact error text. The model states the validator in two independent ways:
- as the checks in source order (`Validation.Problems`);
- as declarative rules: `Validation.Conforms` for the whole variable and one `…Violation` predicate per problem.

Proofs connect the two views: a problem is reported exactly when its rule is broken, the problems come in check order, and the list is empty exactly when the variable conforms.

**The older validator.** `pkg/model/model.go:110-289` holds an older copy of the same three methods, in the same package. The model states that copy through its differences from the canonical one:
- it has no default-value checks;
- its type errors are worded without the `%T` type name;
- otherwise it reports the same problems in the same order.

**Go's `any`.** It is the tagged type `Values.Val`, with nil as a value of its own. `TypeName` prints what Go's `%T` prints.

**Strings.** The Go `strings` functions the parser uses are modelled in module `GoStrings`:
- `TrimSpace` with Unicode white space;
- `Split`, where an empty string gives `[""]`;
- `SplitN(…, 2)`;
- `ReplaceAll`.

Strings are sequences of code points.

`parser.go` reads only the declaration forms listed above. It has no components, multiline defaults, arrays, sections, conditions, or option values that differ from their labels, and neither does the model.

Modules: `GoStrings`, `Values`, `ModelTypes`, `Parser`, `ParserProperties`, `Validation`, `LegacyValidation`.

## Model

| member | source | states |
|---|---|---|
| GoStrings.TrimSpaceUnique | pkg/parser/parser.go:26 | `strings.TrimSpace` removes exactly the white space at both ends: a trimmed text padded with white space on either side trims back to itself |
| GoStrings.TrimSpaceFrame | pkg/parser/parser.go:59-61 | `strings.TrimSpace` removes nothing but white space: the text is its result with white space before and after |
| GoStrings.TrimSpaceEmpty | pkg/parser/parser.go:31 | a line trims to the empty string exactly when it is all Unicode white space |
| GoStrings.SplitPieces | pkg/parser/parser.go:21 | `strings.Split` on a character: no part holds the separator, and the parts joined with it give the text back |
| GoStrings.SplitN2 | pkg/parser/parser.go:38 | `strings.SplitN(s, sep, 2)`: either the whole text as one part, or two parts with `s` equal to the first, the separator, and the second |
| GoStrings.ReplaceAll | pkg/parser/parser.go:73 | `strings.ReplaceAll` returns a text that does not contain the pattern unchanged |
| GoStrings.SplitJoin | pkg/parser/parser.go:21 | splitting a newline-joined list of newline-free lines on `\n` gives the lines back |
| GoStrings.SplitN2First | pkg/parser/parser.go:74 | `SplitN(s, sep, 2)` yields one part exactly when `sep` does not occur, and otherwise cuts at the first occurrence |
| GoStrings.ReplaceAllPrefix | pkg/parser/parser.go:73 | `strings.ReplaceAll` scans left to right: text in which no occurrence of the pattern starts is kept as it is, and replacement continues after it |
| GoStrings.ReplaceCrlfJoin | pkg/parser/parser.go:73 | replacing every CRLF in CRLF-joined lines that hold no CRLF pair gives the LF-joined lines; a lone `\r`, even one just before a CRLF, stays |
| GoStrings.CrlfLines | pkg/parser/parser.go:73 | every text is a non-empty list of CRLF-free lines joined by CRLF pairs, so ReplaceCrlfJoin covers every text |
| Parser.Classify | pkg/parser/parser.go:26-65 | how the loop reads a line: blank exactly when it is all white space; a declaration exactly when its first character is `$` and it contains `:`; skipped as malformed exactly when it starts with `$` and has no `:`; an option line exactly when it is not blank, does not start with `$` and its trimmed text starts with `-`, and its option text is then trimmed |
| Parser.OptionEntryText | pkg/parser/parser.go:59-61 | the option of an option line is exactly the trimmed line after its `-`, less the white space before and after it |
| Parser.Declare | pkg/parser/parser.go:38-55 | a declaration line yields a variable with no options, a nil value, and trimmed name, type and description |
| Parser.Step | pkg/parser/parser.go:26-65 | one loop iteration: a declaration line appends its variable; an option line after a select or multiselect variable appends its text to that variable's options only; no other line changes anything, and variables before the latest never change |
| Parser.Scan | pkg/parser/parser.go:24-67 | the loop never drops or reorders earlier variables and only grows the options of the latest one; scanned variables have a nil value and options only on select kinds |
| Parser.ScanHeaders | pkg/parser/parser.go:24-56 | the names, types and descriptions the loop produces are exactly those of the declaration lines before the first delimiter, in order (reference reading `DeclaredHeaders`) |
| Parser.ParseVariables | pkg/parser/parser.go:19-70 | never fails; one variable per declaration line before the first `---` line, in order; each has a nil value and options only if its type is `select` or `multiselect` |
| Parser.VariablesToMap | pkg/parser/parser.go:98-106 | the keys are exactly the declared names, and each name is bound to the value of its last occurrence |
| Parser.WidgetFor | pkg/parser/parser.go:128-139 | the text input goes exactly to `text`, `string`, `number`, `int` and `integer`; the confirm exactly to `bool` and `boolean`; the multiselect exactly to `multiselect` and the single select to `select`, the types whose declarations collect options; every other type gets no widget |
| Parser.Question | pkg/parser/parser.go:115-123 | the question starts with the description when there is one and with the name otherwise, and what follows that label is exactly ` (<type>)` |
| Parser.Prompt | pkg/parser/parser.go:115-139 | a type without a widget asks nothing and leaves nil; otherwise the type's widget is shown the question (and a select the options), and the prompt fails with the widget's error exactly when the widget fails, or gives its answer: a string from the text input or the single select, a bool from the confirm, a `[]string` from the multiselect |
| Parser.AskFrom | pkg/parser/parser.go:109-146 | the loop from a position on: a variable with a value is skipped and kept; each asked variable gets its own prompt's answer; the first error stops the loop at that variable and leaves it and all later ones as they were |
| Parser.AskForVariables | pkg/parser/parser.go:108-149 | only values change; preset values are kept; the answers are those of the prompts of the variables asked; the first error aborts and is returned; on success every variable with a widget has a value |
| Parser.ParseTemplate | pkg/parser/parser.go:72-96 | the body is the text after the first `\n---\n` of the CRLF-normalised document; a document without that separator has no body; the outcome is a prompt error exactly when asking aborted, and then it is that error, whether or not the separator is there |
| ParserProperties.DelimiterStops | pkg/parser/parser.go:24-28 | nothing after a `---` line affects the scan |
| ParserProperties.BlankLineIgnored | pkg/parser/parser.go:30-33 | a white-space-only line, wherever it is, changes nothing |
| ParserProperties.ParseStopsAtDelimiter | pkg/parser/parser.go:19-28 | the variables of a document are those of its text before the first `---` line |
| ParserProperties.ParseSkipsBlankLine | pkg/parser/parser.go:19-33 | removing a blank line from a document does not change its variables |
| ParserProperties.SplitAtFirstColon | pkg/parser/parser.go:38 | a declaration line is cut at its first colon |
| ParserProperties.DeclareWithDescription | pkg/parser/parser.go:38-55 | the name is the trimmed text between `$` and the first `:`; the type is the trimmed text up to the first `//`; the description is the trimmed text after it |
| ParserProperties.DeclareWithoutDescription | pkg/parser/parser.go:43-48 | without `//` the type is the trimmed rest of the line and the description is empty |
| ParserProperties.ReadDeclarationLine | pkg/parser/parser.go:36-56 | a printed declaration line is read back as the variable it prints |
| ParserProperties.ReadOptionLine | pkg/parser/parser.go:57-62 | a printed option line is an option line whose option text is the printed option, and it is not the delimiter |
| ParserProperties.ReadPaddedOptionLine | pkg/parser/parser.go:57-62 | an option line padded with any white space before the `-`, between it and the option and after the option reads as that option, and only `---` itself is the delimiter |
| ParserProperties.ScanAppend | pkg/parser/parser.go:24-67 | scanning lines without a delimiter, then more lines, is one scan of both |
| ParserProperties.StepOption | pkg/parser/parser.go:57-64 | an option line after a select variable appends its option to that variable and changes nothing else |
| ParserProperties.ScanOptions | pkg/parser/parser.go:57-65 | a run of option lines after a select variable appends all its options in order |
| ParserProperties.ScanVariableLines | pkg/parser/parser.go:36-65 | the printed lines of one variable scan to exactly that variable |
| ParserProperties.ScanBlockLines | pkg/parser/parser.go:24-67 | the printed lines of a list of variables scan to exactly that list |
| ParserProperties.ParseFormat | pkg/parser/parser.go:19-70 | round trip: parsing the printed declaration block of printable variables gives the same variables |
| ParserProperties.AskFromSettled | pkg/parser/parser.go:109-113 | when no variable from a position on needs asking, the loop asks nothing and changes nothing |
| ParserProperties.AskAgain | pkg/parser/parser.go:108-149 | asking again after a successful round asks nothing and changes nothing |
| ParserProperties.ScannedText | pkg/parser/parser.go:74-76 | scanning the part before the first `\n---\n` gives the same variables as scanning the whole text |
| ParserProperties.ScannedPart | pkg/parser/parser.go:73-76 | the same for the CRLF-normalised document |
| ParserProperties.NamesOfAsked | pkg/parser/parser.go:108-146 | asking does not change the set of names |
| ParserProperties.TemplateEnvironment | pkg/parser/parser.go:72-87 | a document that reaches rendering binds exactly the names declared in its normalised text, to the values after asking |
| Parser.Normalize | pkg/parser/parser.go:73 | a document without a carriage return is left as it is |
| ParserProperties.NormalizeLines | pkg/parser/parser.go:73 | on every document: the document is its CRLF-free lines joined by CRLF, and its normal form is the same lines joined by LF |
| ParserProperties.LoneCarriageReturn | pkg/parser/parser.go:73 | `a\rb\r\nc` normalises to `a\rb\nc` and `a\r\r\nb` to `a\r\nb`: only CRLF pairs change |
| ParserProperties.SameNormalForm | pkg/parser/parser.go:73 | two documents with the same CRLF-normalised text parse the same |
| ParserProperties.CrlfInsensitive | pkg/parser/parser.go:72-76 | a document with CRLF line ends parses exactly as the same document with LF line ends |
| Validation.GenericReported | pkg/model/validation.go:11-42 | each of the five type-independent checks reports exactly when its rule is broken, and nothing else |
| Validation.GenericOrdered | pkg/model/validation.go:11-42 | the five type-independent checks report in source order, before any check of the type |
| Validation.BoundsProblems | pkg/model/validation.go:66-76 | with Min or Max non-zero: `Min > Max` is reported; a present value outside the inclusive range is reported, a value that is not a float64 being compared as 0; nothing else |
| Validation.NumberReported | pkg/model/validation.go:46-76 | a `number` variable: the default must be one of the listed number kinds and the value a float64, each reported with the `%T` name; then the bounds |
| Validation.NumberOrdered | pkg/model/validation.go:46-76 | the default, value and bounds checks of a number report in that order |
| Validation.RegexProblems | pkg/model/validation.go:95-107 | with a regex and a value: an invalid pattern is reported once; otherwise a value the pattern does not match is reported; at most one problem |
| Validation.RegexCheckAsWritten | pkg/model/validation.go:95-107 | the check as written panics exactly when there is a regex and a value and the pattern does not compile |
| Validation.RegexCheckAgrees | pkg/model/validation.go:95-107 | when the pattern compiles or the check is skipped, the check as written reports what the corrected check reports |
| Validation.RegexPanicWitness | pkg/model/validation.go:98-104 | the pattern `(` with a value: the check as written panics; the corrected validator reports `invalid regex` alone |
| Validation.TextReported | pkg/model/validation.go:77-107 | a `text` variable: a default and a value that are not strings are each reported with the `%T` name; then the regex check |
| Validation.TextOrdered | pkg/model/validation.go:77-107 | the default, value and regex checks of a text report in that order |
| Validation.BooleanProblems | pkg/model/validation.go:109-115 | a `boolean` variable: exactly one problem when a present value is not a bool |
| Validation.SelectReported | pkg/model/validation.go:117-128 | a `select` variable: no options, and a present value that is not a string, are each reported exactly when they hold |
| Validation.InOptions | pkg/model/validation.go:140-146 | the inner search finds a value exactly when some option's value equals it; option names play no part |
| Validation.MissingOptions | pkg/model/validation.go:152-166 | a `[]string` value: one `value is not in options` per item that no option's value equals |
| Validation.MultiselectValueProblems | pkg/model/validation.go:135-171 | a string not on offer, an item of a `[]string` not on offer, and a value of any other type are reported, and nothing else |
| Validation.MultiselectReported | pkg/model/validation.go:130-171 | a `multiselect` variable: no options, a missing item, and a value of the wrong type are reported exactly when they hold |
| Validation.KindReported | pkg/model/validation.go:45-173 | the checks of the declared type report exactly the broken rules of that type; other types are not checked |
| Validation.KindOrdered | pkg/model/validation.go:45-173 | the checks of the type report in source order |
| Validation.ProblemsOrdered | pkg/model/validation.go:8-173 | all problems come in source order; only a missing item of a `[]string` value can repeat |
| Validation.ProblemsReported | pkg/model/validation.go:8-173 | a problem is reported exactly when its rule is broken |
| Validation.ViolationsIff | pkg/model/validation.go:8-173 | the rules stated one by one and the rules stated as a whole agree |
| Validation.Problems | pkg/model/validation.go:8-180 | the type-independent checks followed by those of the type report nothing exactly when the variable conforms to every rule |
| Validation.NewValidationError | pkg/model/validation.go:203-205 | every error text starts with `variable ` and is the name and the message plus 11 characters |
| Validation.ParseValidationError | pkg/model/validation.go:203-205 | a text read back as a name and a message is exactly the error text for them |
| Validation.ParseNewValidationError | pkg/model/validation.go:203-205 | round trip: the name and the message can be read back from an error text when the name has no colon |
| Validation.Errors | pkg/model/validation.go:8-180 | one error text per problem, in the same order, each naming the variable |
| Validation.Validate | pkg/model/validation.go:8-180 | `Variable.Validate`: one error per problem in check order, each `variable <name>: <message>`; nil exactly when the variable conforms (with the corrected regex check, see Findings) |
| Validation.ErrorsOf | pkg/model/validation.go:189-194 | the concatenated errors are empty exactly when every variable's errors are |
| Validation.ErrorsOfAppend | pkg/model/validation.go:189-194 | the errors of two lists of variables are the errors of the first followed by those of the second |
| Validation.ErrorsOfAt | pkg/model/validation.go:189-194 | every variable's errors stand in the result in declaration order: after those of the variables before it, before those after it |
| Validation.TemplateErrorsWith | pkg/model/validation.go:182-201 | an empty body gives `template is required` first, followed by the errors of every variable in declaration order; nil exactly when the body is non-empty and no variable has an error |
| Validation.TemplateErrors | pkg/model/validation.go:182-201 | `Template.Validate`: the missing-body error, then every variable's `Variable.Validate` errors in declaration order; nil exactly when the body is non-empty and every variable conforms |
| LegacyValidation.LegacyOrdered | pkg/model/model.go:113-257 | the older checks also report in source order |
| LegacyValidation.LegacyValidate | pkg/model/model.go:110-264 | the older `Variable.Validate`: one error per problem in check order, each `variable <name>: <message>` |
| LegacyValidation.LegacyTemplateErrors | pkg/model/model.go:266-285 | the older `Template.Validate`: the missing-body error, then every variable's older errors in declaration order; nil exactly when the body is non-empty and no variable has an older-validator problem |
| LegacyValidation.PlainNumber | pkg/model/model.go:148-168 | the older number checks are the canonical ones without the default check, with `value must be a number` unworded by type |
| LegacyValidation.PlainText | pkg/model/model.go:169-191 | the older text checks are the canonical ones without the default check, with `value must be a string` unworded by type |
| LegacyValidation.PlainKind | pkg/model/model.go:147-257 | the older type checks are the plain form of the canonical ones |
| LegacyValidation.LegacyIsPlain | pkg/model/model.go:110-264 | the older validator reports the canonical problems, less the default checks and with the plain wording, in the same order |
| LegacyValidation.LegacyIgnoresDefault | pkg/model/model.go:146-257 | the default value plays no part in the older validator |
| LegacyValidation.CanonicalIsStricter | pkg/model/model.go:266-285 | a template the canonical validator accepts is accepted by the older one |
| LegacyValidation.DefaultWitness | pkg/model/model.go:148-168 | a number with a string default passes the older validator and fails the canonical one |

## Left out

- `cmd/*`, `main.go`, `pkg/utils/read.go` and `gttp_test.go`: command-line flags, the HTTP server, clipboard and file output, schema reflection, file and HTTP reads, and the golden-file tests are I/O. `pkg/utils/read.go`'s CRLF clean-up is the same replacement as `Parser.Normalize`.
- `ToJSON`, `ToYAML`, `FromJSON` and `FromYAML` (`pkg/model/model.go:72-108`) wrap encoders and decoders from other libraries.
- The prompt widgets are the `Parser.Oracle` parameter. The question's gray colouring is dropped: `Parser.Question` is the uncoloured text.
- `f.FormatSafe` and `ParseGoTextTemplate` are external template engines. `Parser.ParseTemplate` ends where they begin, with the environment and the body. The error `ParseGoTextTemplate` returns at `pkg/parser/parser.go:93-95` is discarded by the source and is not modelled.
- `pkg/parser/parser.go:77-79` cannot happen, because `ParseVariables` never returns an error. The model's `ParseVariables` returns the list alone.
- Regular expressions are the abstract `ModelTypes.RegexEngine`: whether a pattern compiles and whether it matches a text.
- float64 `Min`, `Max` and values are `real`. NaN and the infinities are not modelled. Go's comparisons with NaN are false, which the reals cannot show.
- The magnitudes of number kinds other than float64 are not modelled. Only their `%T` names matter, because only float64 values are compared.
- Strings are code-point sequences. `TrimSpace` and `HasPrefix` behave the same on UTF-8 bytes for the characters the parser looks at. Invalid UTF-8 is not modelled.
- `GoStrings.SplitN2` and `GoStrings.ReplaceAll` require a non-empty separator. Go's empty-separator behaviour is never used by the source.
- GoStrings.ReplaceAll: its own contract covers only pattern-free text, and its full behaviour is proved only for the pattern `\r\n` (ReplaceCrlfJoin with CrlfLines), the only pattern the source replaces.
- `Template.Structures` are not validated by either validator, and the model does not validate them either.
- Option names: the comment in `pkg/model/model.go:63-69` says an option without a value uses its name. Both validators compare only `Option.Value`, and so does the model.
- Both validators declare the same methods in package `model`. Go does not allow two declarations of one method, so the package cannot build as it stands. The model keeps them apart as modules `Validation` and `LegacyValidation`.
- Validation.Validate: uses the corrected regex check `Validation.RegexProblems`. Where `pkg/model/validation.go:98-104` panics (a regex that does not compile, with a value), it reports `invalid regex` instead.
- Validation.TemplateErrors: the same corrected regex check, through `Validation.Validate`; the source panics there.
- LegacyValidation.LegacyValidate: the same corrected regex check. Where `pkg/model/model.go:182-188` panics, it reports `invalid regex` instead.
- LegacyValidation.LegacyTemplateErrors: the same corrected regex check, through `LegacyValidation.LegacyValidate`; the source panics there.
- Values.Other: a value of any other type, named by its `%T` text. The datatype does not rule out that name being one the listed types already use; Go's type names are unique.
- `ParseTemplate` on a document without the separator: the source panics on the missing part, after asking. The model returns the `MissingBody` outcome there.

## Findings

| source | as written | input that shows it | evidently intended | confidence | as-written member | corrected member |
|---|---|---|---|---|---|---|
| pkg/model/validation.go:98-104 (and pkg/model/model.go:182-188) | after `regexp.Compile` fails, the error is recorded but `re.MatchString` is still called on the nil pattern, which panics | a `text` variable with regex `(` and value `"x"` | report `invalid regex` once and skip the match | not executed | Validation.RegexCheckAsWritten, Validation.RegexPanicWitness | Validation.RegexProblems |
