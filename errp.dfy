/**
 * The `errp` package: an error record carrying a message, a status code, a
 * caller trace and a requeue hint, the option-driven constructor `New`, the
 * option wrappers `Code` and `Queue`, the trace builder `Trace` and the
 * result shaping of `Decode`.
 *
 * Go's `interface{}` arguments and type assertions become closed datatypes:
 * `Input` for the primary input of `New`, `Option` for its options, each with
 * a variant that stands for every type the code does not recognise.
 */
module Errp {
  import opened TraceTrim

  datatype StatusCode = StatusCode(code: int)

  /** Go field `Function` is `funcName` here (`function` is a Dafny keyword). */
  datatype ErrTrace = ErrTrace(line: int, file: string, funcName: string)

  datatype QueueAction = QueueAction(requeue: bool)

  datatype ErrP = ErrP(info: string, statusCode: StatusCode, trace: ErrTrace, queue: QueueAction)

  /** The zero values Go gives a freshly declared record. */
  const NoCode := StatusCode(0)
  const NoTrace := ErrTrace(0, "", "")
  const NoQueue := QueueAction(false)
  const Zero := ErrP("", NoCode, NoTrace, NoQueue)

  /** The dynamic type of `New`'s first argument: a string, an error (with its `Error()` text), or anything else. */
  datatype Input = Str(s: string) | Err(text: string) | OtherInput

  /** The dynamic type of one option of `New`; `OtherOption` covers every other type, errors included. */
  datatype Option = WithCode(code: StatusCode) | WithTrace(trace: ErrTrace) | WithQueue(queue: QueueAction) | OtherOption

  /** Which field of the record an option writes, if any. */
  datatype Kind = CodeKind | TraceKind | QueueKind | Ignored

  function KindOf(o: Option): Kind {
    match o
    case WithCode(_) => CodeKind
    case WithTrace(_) => TraceKind
    case WithQueue(_) => QueueKind
    case OtherOption => Ignored
  }

  /** The field of kind `k` of `e`, as the option that would have set it to its current value. */
  function Field(e: ErrP, k: Kind): Option {
    match k
    case CodeKind => WithCode(e.statusCode)
    case TraceKind => WithTrace(e.trace)
    case QueueKind => WithQueue(e.queue)
    case Ignored => OtherOption
  }

  /** A record is determined by its message and its three option-settable fields. */
  lemma FieldsDetermineRecord(e1: ErrP, e2: ErrP)
    requires e1.info == e2.info
    requires Field(e1, CodeKind) == Field(e2, CodeKind)
    requires Field(e1, TraceKind) == Field(e2, TraceKind)
    requires Field(e1, QueueKind) == Field(e2, QueueKind)
    ensures e1 == e2
  {
  }

  /** The record after the primary input has been inspected and before any option. */
  function Initial(input: Input): (r: ErrP)
    ensures input.Str? ==> r.info == input.s
    ensures input.Err? ==> r.info == input.text
    ensures input.OtherInput? ==> r.info == ""
    ensures r.statusCode == NoCode && r.trace == NoTrace && r.queue == NoQueue
  {
    match input
    case Str(s) => Zero.(info := s)
    case Err(text) => Zero.(info := text)
    case OtherInput => Zero
  }

  /**
   * One pass of the option loop: a recognised option overwrites its own field
   * and nothing else; any other option leaves the record as it is.
   */
  function Apply(e: ErrP, o: Option): (r: ErrP)
    ensures r.info == e.info
    ensures forall k :: Field(r, k) == if KindOf(o) == k then o else Field(e, k)
  {
    match o
    case WithCode(c) => e.(statusCode := c)
    case WithTrace(t) => e.(trace := t)
    case WithQueue(q) => e.(queue := q)
    case OtherOption => e
  }

  /** The option loop as a left fold, options taken in list order. */
  function ApplyAll(e: ErrP, opts: seq<Option>): (r: ErrP)
    ensures r.info == e.info
    decreases |opts|
  {
    if opts == [] then e else ApplyAll(Apply(e, opts[0]), opts[1..])
  }

  /** What `New(input, options...)` returns. */
  function Construct(input: Input, options: seq<Option>): ErrP {
    ApplyAll(Initial(input), options)
  }

  /** Folding over two lists in a row is folding over their concatenation. */
  lemma {:induction false} ApplyAllConcat(e: ErrP, a: seq<Option>, b: seq<Option>)
    ensures ApplyAll(e, a + b) == ApplyAll(ApplyAll(e, a), b)
    decreases |a|
  {
    if a == [] {
      assert a + b == b;
    } else {
      assert (a + b)[1..] == a[1..] + b;
      ApplyAllConcat(Apply(e, a[0]), a[1..], b);
    }
  }

  /** Options are applied in list order: a further option acts on the record built so far. */
  lemma NewAppliesInOrder(input: Input, options: seq<Option>, o: Option)
    ensures Construct(input, options + [o]) == Apply(Construct(input, options), o)
  {
    ApplyAllConcat(Initial(input), options, [o]);
    assert [o][1..] == [];
  }

  /** `opts[i]` is the last option of kind `k` in `opts`. */
  predicate LastOfKind(opts: seq<Option>, i: int, k: Kind) {
    0 <= i < |opts| && KindOf(opts[i]) == k && forall j :: i < j < |opts| ==> KindOf(opts[j]) != k
  }

  /** No option of kind `k` occurs in `opts`. */
  predicate NoneOfKind(opts: seq<Option>, k: Kind) {
    forall j :: 0 <= j < |opts| ==> KindOf(opts[j]) != k
  }

  /**
   * After the fold, each field holds the last option of its kind, or what it
   * held before when the list has no option of that kind.
   */
  lemma {:induction false} LastOptionOfKindWins(e: ErrP, opts: seq<Option>, k: Kind)
    ensures forall i :: LastOfKind(opts, i, k) ==> Field(ApplyAll(e, opts), k) == opts[i]
    ensures NoneOfKind(opts, k) ==> Field(ApplyAll(e, opts), k) == Field(e, k)
    decreases |opts|
  {
    if opts != [] {
      var init, o := opts[..|opts| - 1], opts[|opts| - 1];
      assert opts == init + [o];
      ApplyAllConcat(e, init, [o]);
      assert [o][1..] == [];
      assert ApplyAll(e, opts) == Apply(ApplyAll(e, init), o);
      LastOptionOfKindWins(e, init, k);
      if KindOf(o) != k {
        forall i | LastOfKind(opts, i, k) ensures LastOfKind(init, i, k) {
          assert i != |opts| - 1;
        }
      }
    }
  }

  /**
   * What `New` promises about each field: the message comes from a string or
   * error input and is empty otherwise, and each of status code, trace and
   * queue hint is set by the last option of its type, staying at its zero
   * value when there is none.
   */
  lemma NewFields(input: Input, options: seq<Option>)
    ensures input.Str? ==> Construct(input, options).info == input.s
    ensures input.Err? ==> Construct(input, options).info == input.text
    ensures input.OtherInput? ==> Construct(input, options).info == ""
    ensures forall i, k :: LastOfKind(options, i, k) ==> Field(Construct(input, options), k) == options[i]
    ensures forall k :: NoneOfKind(options, k) ==> Field(Construct(input, options), k) == Field(Zero, k)
  {
    forall k ensures (forall i :: LastOfKind(options, i, k) ==> Field(Construct(input, options), k) == options[i])
      && (NoneOfKind(options, k) ==> Field(Construct(input, options), k) == Field(Zero, k))
    {
      LastOptionOfKindWins(Initial(input), options, k);
    }
  }

  /** An option of an unrecognised type, wherever it is placed, changes nothing. */
  lemma UnknownOptionIgnored(input: Input, before: seq<Option>, after: seq<Option>)
    ensures Construct(input, before + [OtherOption] + after) == Construct(input, before + after)
  {
    var e := Initial(input);
    ApplyAllConcat(e, before + [OtherOption], after);
    ApplyAllConcat(e, before, [OtherOption]);
    assert [OtherOption][1..] == [];
    ApplyAllConcat(e, before, after);
  }

  /** Each option kind touches only its own field, so adjacent options of different kinds commute. */
  lemma DifferentKindsCommute(input: Input, before: seq<Option>, o1: Option, o2: Option, after: seq<Option>)
    requires KindOf(o1) != KindOf(o2)
    ensures Construct(input, before + [o1, o2] + after) == Construct(input, before + [o2, o1] + after)
  {
    var e := ApplyAll(Initial(input), before);
    ApplyAllConcat(Initial(input), before + [o1, o2], after);
    ApplyAllConcat(Initial(input), before + [o2, o1], after);
    ApplyAllConcat(Initial(input), before, [o1, o2]);
    ApplyAllConcat(Initial(input), before, [o2, o1]);
    assert [o1, o2][1..] == [o2] && [o2][1..] == [];
    assert [o2, o1][1..] == [o1] && [o1][1..] == [];
    FieldsDetermineRecord(Apply(Apply(e, o1), o2), Apply(Apply(e, o2), o1));
  }

  /**
   * `New`: the message from the primary input, then the options one by one,
   * each recognised option overwriting its field. Never fails.
   */
  method New(input: Input, options: seq<Option>) returns (e: ErrP)
    ensures e == Construct(input, options)
  {
    e := Zero;
    if input.Str? {
      e := e.(info := input.s);
    }
    if input.Err? {
      e := e.(info := input.text);
    }
    if |options| == 0 {
      return;
    }
    var i := 0;
    while i < |options|
      invariant 0 <= i <= |options|
      invariant ApplyAll(e, options[i..]) == Construct(input, options)
    {
      var option := options[i];
      assert options[i..] == [option] + options[i + 1..];
      if option.WithCode? {
        e := e.(statusCode := option.code);
      }
      if option.WithTrace? {
        e := e.(trace := option.trace);
      }
      if option.WithQueue? {
        e := e.(queue := option.queue);
      }
      i := i + 1;
    }
  }

  /** `Code(n)`: the option that sets the status code to `n`. */
  function Code(code: int): (r: Option)
    ensures KindOf(r) == CodeKind && r.code.code == code
  {
    WithCode(StatusCode(code))
  }

  /** `Queue(b)`: the option that sets the requeue hint to `b`. */
  function Queue(requeue: bool): (r: Option)
    ensures KindOf(r) == QueueKind && r.queue.requeue == requeue
  {
    WithQueue(QueueAction(requeue))
  }

  /** An option built by `Code(n)` or `Queue(b)` and given last decides that field. */
  lemma WrappersSetTheirField(input: Input, options: seq<Option>, n: int, b: bool)
    ensures Construct(input, options + [Code(n)]).statusCode.code == n
    ensures Construct(input, options + [Queue(b)]).queue.requeue == b
  {
    NewAppliesInOrder(input, options, Code(n));
    NewAppliesInOrder(input, options, Queue(b));
  }

  /** Without options, a string becomes the message verbatim and every other field is zero. */
  lemma NewFromStringOnly(s: string)
    ensures Construct(Str(s), []) == ErrP(s, NoCode, NoTrace, NoQueue)
  {
  }

  /** `New("x", Code(1), Code(2))` carries status code 2. */
  lemma LaterCodeWinsExample()
    ensures Construct(Str("x"), [Code(1), Code(2)]).statusCode.code == 2
  {
    var options := [Code(1), Code(2)];
    assert LastOfKind(options, 1, CodeKind);
    NewFields(Str("x"), options);
  }

  /** `New("x", Queue(true))` sets the hint and leaves status code and trace unset. */
  lemma QueueOnlyExample()
    ensures var e := Construct(Str("x"), [Queue(true)]);
      e.queue.requeue && e.statusCode == NoCode && e.trace == NoTrace && e.info == "x"
  {
    var options := [Queue(true)];
    assert [] + options == options;
    NewAppliesInOrder(Str("x"), [], Queue(true));
  }

  /** What the runtime reports about the caller of `Trace`: its line, file path and qualified function name. */
  datatype CallerFrame = CallerFrame(line: int, file: string, funcName: string)

  /**
   * `Trace()` for the given caller frame: the line as reported, the file path
   * and the function name each either kept or cut down to what follows their
   * last slash.
   */
  function Trace(frame: CallerFrame): (t: ErrTrace)
    ensures t.line == frame.line
    ensures t.file == frame.file || TrimmedFrom(t.file, frame.file)
    ensures t.funcName == frame.funcName || TrimmedFrom(t.funcName, frame.funcName)
  {
    ErrTrace(frame.line, TrimFile(frame.file), TrimFunction(frame.funcName))
  }

  /** What `json.Unmarshal` did with the text: filled the record, or failed with a message after filling part of it. */
  datatype ParseOutcome = Parsed(value: ErrP) | ParseFailed(message: string, partial: ErrP)

  /** The second result of `Decode`: Go's nil error, or the failure as a record of its own. */
  datatype DecodeError = NoError | DecodeFailed(cause: ErrP)

  /**
   * `Decode`: on success the parsed record and no error; on failure the record
   * as the parser left it and `New(parseErr, Trace())`, whose trace is the one
   * taken at `Decode`'s own frame.
   */
  function Decode(outcome: ParseOutcome, frame: CallerFrame): (r: (ErrP, DecodeError))
    ensures outcome.Parsed? ==> r.0 == outcome.value && r.1 == NoError
    ensures outcome.ParseFailed? ==> r.0 == outcome.partial && r.1.DecodeFailed?
    ensures outcome.ParseFailed? ==> r.1.cause == ErrP(outcome.message, NoCode, Trace(frame), NoQueue)
  {
    match outcome
    case Parsed(value) => (value, NoError)
    case ParseFailed(message, partial) =>
      var options := [WithTrace(Trace(frame))];
      assert [] + options == options;
      NewAppliesInOrder(Err(message), [], options[0]);
      (partial, DecodeFailed(Construct(Err(message), options)))
  }
}
