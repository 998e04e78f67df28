# errP in Dafny

A model of the Go package `errp`. It wraps a failure in an `ErrP` record with four parts:

- `Info`, a message;
- `StatusCode{Code}`, an opaque integer;
- `Trace{Line, File, Function}`, a caller location;
- `Queue{Requeue}`, a hint for message-broker consumers.

The model covers:

- the option-driven constructor `New`;
- the option wrappers `Code` and `Queue`;
- the file and function trimming inside `Trace`;
- the way `Decode` shapes its results.

There are two modules:

- `TraceTrim` (`trace_trim.dfy`) models the two anchored regular expressions in `Trace`. `MatchAt` states declaratively where the pattern `/([name]+\.[ext]+)$` matches. `Trim` computes the trimmed string by finding the last `/` and the first `.` after it. `Trim`'s contract says the two agree. It also says a trimmed result is the last path segment, holds exactly one dot, and is preceded in the input by a `/`.
- `Errp` (`errp.dfy`) models the records and the functions that build and decode them.
  - Go's `interface{}` arguments become closed datatypes. `Input` is `Str | Err | OtherInput`. `Option` is `WithCode | WithTrace | WithQueue | OtherOption`.
  - `New` is a method with the source's own loop. It is proved equal to `Construct`, a left fold of `Apply` over the options.
  - The lemmas prove these properties of the fold:
    - last write wins for each field;
    - an option of an unrecognised type changes nothing;
    - options of different kinds commute.

Three behaviours of the code worth knowing:

- An `error` passed as an option is ignored like any other unrecognised option; the record has no field for it (errp.go:54-67).
- On a parse failure, `Decode` returns whatever `json.Unmarshal` left in the record (errp.go:107-111).
- `Trace` reduces a function name only when its last path segment has exactly one dot. Method names such as `pkg.(*T).M` and closures such as `pkg.F.func1` keep their full import path.

## Model

| member | source | states |
|---|---|---|
| Errp.New | errp.go:38-70 | The loop, with its early return for an empty option list, returns exactly the fold `Construct(input, options)`. That fold is characterised by the lemmas below. |
| Errp.Initial | errp.go:40-48 | Before any option, `Info` is the string input verbatim, the `Error()` text of an error input, or empty for any other input. Status code, trace and queue hint are at their zero values. |
| Errp.Apply | errp.go:54-67 | One loop pass. An option writes the field of its own kind and no other field, and never touches `Info`. An option of unrecognised type leaves every field as it was. |
| Errp.ApplyAll | errp.go:54-67 | Folding any list of options over a record never changes its `Info`. |
| Errp.ApplyAllConcat | errp.go:54-67 | Processing `a` and then `b` gives the same record as processing `a + b`, so options are consumed strictly in list order. |
| Errp.NewAppliesInOrder | errp.go:54-67 | Adding an option at the end applies it to the record built from the earlier options. |
| Errp.LastOptionOfKindWins | errp.go:54-67 | After the loop, each field holds the last option of its kind. With no option of that kind, the field keeps its earlier value. |
| Errp.NewFields | errp.go:40-67 | Three results of `New`. `Info` is the string input verbatim, or the `Error()` text of an error input, or empty for any other input. Status code, trace and queue hint are each set by the last option of their type, and stay zero when there is none. |
| Errp.UnknownOptionIgnored | errp.go:54-67 | Inserting an option of unrecognised type anywhere in the list leaves the result of `New` unchanged. |
| Errp.DifferentKindsCommute | errp.go:54-67 | Swapping two adjacent options of different kinds does not change the result, because each kind is independent of the others. |
| Errp.Code | errp.go:73-75 | `Code(n)` is a status-code option carrying `n`. |
| Errp.Queue | errp.go:100-102 | `Queue(b)` is a queue option carrying `b`. |
| Errp.WrappersSetTheirField | errp.go:56-66 | When `Code(n)` comes last, `New` yields code `n`. When `Queue(b)` comes last, it yields requeue `b`. |
| Errp.NewFromStringOnly | errp.go:40-52 | `New(s)` with no options has `Info == s`, code 0, a zero trace and requeue false. |
| Errp.LaterCodeWinsExample | errp.go:56-58 | `New("x", Code(1), Code(2))` has code 2. |
| Errp.QueueOnlyExample | errp.go:64-66 | `New("x", Queue(true))` has requeue true. Its code and trace stay zero and its `Info` stays `"x"`. |
| Errp.Trace | errp.go:78-97 | The line is passed through. The file and the function name are each either kept unchanged or replaced by their last path segment, which has exactly one dot. |
| Errp.Decode | errp.go:105-115 | When parsing succeeds, `Decode` returns the parsed record and no error. When it fails, `Decode` returns the record as the parser left it. The error it returns then is a record with `Info` equal to the parser's message, code 0, requeue false and the trace taken at `Decode`'s frame. |
| TraceTrim.Trim | errp.go:84-94 | When the anchored pattern matches, the result is its captured group, the text after the matched slash. Otherwise the string is unchanged. A trimmed result is a proper suffix of the input that follows a `/`, contains no `/` and has exactly one `.`. |
| TraceTrim.TrimFile | errp.go:84-88 | The file pattern uses the name class before the dot and `\w` (with its case-folded extras) after it. When it matches, the file becomes the text after the last slash. Otherwise it is unchanged. |
| TraceTrim.TrimFunction | errp.go:90-94 | The function pattern uses the name class on both sides of the dot. When it matches, the function name becomes the text after the last slash. Otherwise it is unchanged. |
| TraceTrim.MatchIsUnique | errp.go:84-94 | The pattern can match only at the last `/` and at the first `.` after it, so there is at most one match. |
| TraceTrim.NoSlashKept | errp.go:84-94 | A string with no `/` is never trimmed. |
| TraceTrim.TwoDotsKept | errp.go:84-94 | A string with two dots after its last `/` is never trimmed. This covers methods, closures and multi-dot file names. |
| TraceTrim.FileMatchIsFunctionMatch | errp.go:85-91 | Every match of the file pattern also matches the function pattern at the same positions. |
| TraceTrim.TrimFunctionExample | errp.go:90-94 | `a/b/pkg.F` becomes `pkg.F`. |
| TraceTrim.TrimFunctionKeepsMethod | errp.go:90-94 | `a/pkg.(*T).M` is kept whole. |
| TraceTrim.TrimFileExample | errp.go:84-88 | `/src/errp/errp.go` becomes `errp.go`. |
| TraceTrim.TrimFileFoldedExample | errp.go:84-88 | `/x/ſ.go` becomes `ſ.go`, because `(?i)` folds the long s into `\w`. |
| TraceTrim.TrimFunctionFoldedExample | errp.go:90-94 | `a/pkg.` followed by U+212A (Kelvin sign) becomes `pkg.` followed by U+212A, because `(?i)` folds the Kelvin sign into `\w`. |
| TraceTrim.TrimFileKeepsMultiDot | errp.go:84-88 | `/gen/api.pb.go` is kept whole. |
| TraceTrim.TrimFileKeepsBareName | errp.go:84-88 | `main.go`, which has no slash, is kept whole. |

## Left out

- Stack inspection in `Trace` (errp.go:79-82) is left out. `runtime.Callers`, `runtime.FuncForPC` and `FileLine` read the live call stack. Their results become the `CallerFrame` parameter. `Decode` receives the frame that `Trace` would see.
- General regular-expression matching is left out. Only the two fixed patterns are modelled, as character-class predicates. Go's `\w` is ASCII letters, digits and `_`. Under the `(?i)` flag, case folding adds two non-ASCII characters to it: U+017F (long s) and U+212A (Kelvin sign). The model's word class includes both.
- Characters are Dafny `char`s (Unicode scalar values), matching the runes Go's `regexp` decodes from UTF-8. Invalid UTF-8 in a path or function name is not modelled.
- `Error()` (errp.go:31-34) and the `json.Unmarshal` call in `Decode` (errp.go:109) are left out. Both are calls into `encoding/json`. `Decode` is modelled over an abstract `ParseOutcome`, so no serialisation round trip is stated. The discarded marshal error is also outside the model.
- A nil `error` passed to `Decode` is left out. In Go, `input.Error()` panics on it. The model's `Decode` receives the parse outcome directly.
- Go's type assertions are not modelled. Every type other than `string` and `error` collapses into `OtherInput`. Every type other than `StatusCode`, `ErrTrace` and `QueueAction` collapses into `OtherOption`. These include `int`, `float64` and `error`.
- `StatusCode.Code` and `ErrTrace.Line` are Go `int` values, modelled as unbounded integers. The package never does arithmetic on them, so no wrap-around can arise.
