# xerrors error chains in Dafny

This project models the error-chain library `xerrors` (one Go file, `error.go`).
An `*Error` holds a message, an optional cause and an optional captured stack.
The library builds chains of such errors, renders their messages, and walks a
chain to choose the most informative stack trace. It also renders the frames of
that trace as text and as an array of descriptor strings for structured logging.

The model is functional. A chain is the datatype
`Err = Node(msg, cause, stack) | Foreign(text, inner)`. A Go `error` value is an
`Option<Err>`, where `None` is nil. `Foreign` stands for any error the library
did not build, such as `errors.New` or a `fmt.Errorf("%w")` wrapper. A value of
this datatype is finite, so every chain ends and every operation is a total
function. Go does not guarantee this for foreign links (see "## Left out").

Modules:

- `ErrorChain` (`chain.dfy`): the datatype, unwrapping, the `errors.As` and `errors.Is` walks, and `Error()` and plain `%v` rendering.
- `StackTraces` (`stacktrace.dfy`): the traversal `StackTrace`, a reference definition `Deepest` of the selection it makes, and `ZapField`.
- `Capture` (`capture.dfy`): `caller` and `callerSkip`, with the skip depth and the 32-entry buffer.
- `Constructors` (`constructors.dfy`): `Define`, `New` and the other constructors, `WithStack`, `withStack`, `(*Error).WithStack`, `WithMessage` and `WithMessagef`.
- `Frames` (`frames.dfy`): `Frames.String`, `Frames.MarshalLogArray` and `Frame.String`, over resolved frames.
- `Format` (`format.dfy`): `(*Error).Format`.
- `Decimal` (`decimal.dfy`): `%d` printing of line numbers, with a parser as its partner.
- `Scenarios` (`scenarios.dfy`): the situations the repository's tests exercise.

Three runtime services become inputs:

- Stack capture: each capturing constructor takes `callStack`, the goroutine stack as `runtime.Callers` would see it.
- Frame resolution: `Format` takes `resolve`, and the frame renderers take the frames the runtime resolved.
- `fmt.Sprintf`: the `...f` constructors take the formatted text.

## Model

| member | source | states |
|---|---|---|
| `ErrorChain.Unwrap` | error.go:32-34 | `(*Error).Unwrap` returns the cause, and a foreign wrapper gives what it wraps. It has no contract of its own: `Chain` collects the values repeated unwrapping meets, and `FirstNode`, `Is` and the `StackTraces` lemmas are stated over that chain. |
| `ErrorChain.ErrorText` | error.go:20-30 | `Error()` starts with the message, and it is exactly the message when there is no cause. |
| `ErrorChain.Print` | error.go:39-47 | `fmt.Fprint` of an `*Error` goes through `Format` with verb `v`. The output starts with the message, and it is exactly the message when there is no cause. |
| `ErrorChain.FirstNode` | error.go:147-151 | `errors.As` into `*Error` finds the first `*Error` of the chain, with no `*Error` before it. It is absent exactly when the chain holds no `*Error`. |
| `ErrorChain.Is` | error_test.go:87-90 | `errors.Is` holds exactly when the target is one of the values reached by unwrapping. |
| `ErrorChain.PrintIsText` | error.go:20-53 | Printing an `*Error` through its `Format` with plain `%v` gives the same text as its `Error()`. The two paths test emptiness differently (`msg != ""` and `b.Len() != 0`) and still agree. |
| `ErrorChain.TextIsJoinedSegments` | error.go:20-30 | The rendered text is the chain's segments joined by `": "`. The segments are each non-empty message down the `*Error` prefix, then the last message or the foreign text. So a wrapper with an empty message renders exactly as its cause. |
| `StackTraces.Walk` | error.go:154-165 | The loop's accumulator never shrinks. What it ends with is either its starting value or a stack held by some link of the chain. |
| `StackTraces.StackTrace` | error.go:147-168 | The `errors.As` step followed by the loop. It has no contract of its own: `StackTraceIsDeepest` and `StackTraceSelectsFirstLongest` characterise it. |
| `StackTraces.WalkPicksDeepest` | error.go:154-165 | The loop with its strict `<` keeps its accumulator unless the rest of the chain holds a strictly longer stack. In that case it yields the first such longest stack. |
| `StackTraces.DeepestFromFirstNode` | error.go:147-153 | Starting the walk at the first `*Error` loses nothing: foreign links before it hold no stack. |
| `StackTraces.StackTraceIsDeepest` | error.go:147-168 | `StackTrace` equals the reference selection: the longest stack in the chain, the head winning ties. |
| `StackTraces.StackTraceSelectsFirstLongest` | error.go:147-168 | No link's stack is longer than the result. A non-empty result is the stack of a link that every earlier link falls strictly short of. The result is nil exactly when every stack in the chain is empty. |
| `StackTraces.StackTraceOfNode` | error.go:156-161 | At an `*Error` head, the result is the head's own stack unless the rest of the chain holds a strictly longer one. |
| `StackTraces.StackTraceOfForeign` | error.go:162-164 | A foreign wrapper is seen through: its stack trace is that of what it wraps. |
| `StackTraces.ZapField` | error.go:134-141 | The field is absent exactly when the chain holds no `*Error`. Otherwise it is the chain's stack trace. |
| `Capture.CallerSkip` | error.go:230-234 | The result has `min(32, len - skip)` frames, or none when `skip` reaches past the stack. Each is the frame `skip` positions further in. |
| `Capture.Caller` | error.go:224-228 | Exactly `min(32, len - 3)` frames, or none when the stack is no deeper than 3. Each is the frame 3 positions further in. |
| `Constructors.Define` | error.go:64-67 | A root `*Error` with no cause and no stack trace, which renders as its message. |
| `Constructors.Definef` | error.go:69-72 | The same, given the formatted message. |
| `Constructors.New` | error.go:74-77 | A root `*Error` with no cause and no stack trace, which renders as its message. |
| `Constructors.Newf` | error.go:79-82 | The same, given the formatted message. |
| `Constructors.NewWithStack` | error.go:84-88 | A root `*Error` that renders as its message and whose stack trace is the captured stack. |
| `Constructors.NewfWithStack` | error.go:90-94 | The same, given the formatted message. |
| `Constructors.Annotate` | error.go:98-116 | Nil stays nil. A chain with a stack trace is returned unchanged. Any other error becomes the cause of a new `*Error` with an empty message, whose stack trace is the captured stack and whose text is the cause's text. |
| `Constructors.WithStack` | error.go:96-106 | `WithStack` is nil exactly on nil and keeps an existing trace, returning its input. Otherwise it wraps with an empty message, so `Unwrap` gives back the input. The stack trace becomes `caller()`. The rendered text is unchanged. |
| `Constructors.WithStackSkip` | error.go:108-116 | `withStack` behaves like `WithStack`, but captures with the given skip depth. |
| `Constructors.ErrorWithStack` | error.go:55-57 | `(*Error).WithStack` never returns nil. It returns the receiver when the receiver already has a trace, and otherwise wraps it with a skip-4 capture. The text is unchanged. |
| `Constructors.WithMessage` | error.go:118-124 | The result is a new `*Error` with the given message whose `Unwrap` is `err`, nil included. `errors.Is` still finds `err` under the structural comparison listed under "## Left out". The new node stores no stack when `err` already has a trace, which is then kept. Otherwise it stores the capture, which becomes the trace. The text is `msg`, then `": "` and the cause's text, with the separator only when both exist. |
| `Constructors.WithMessagef` | error.go:126-132 | The same, given the formatted message. |
| `Constructors.WithStackIdempotent` | error.go:98-106 | A second `WithStack` returns the first one's result exactly when the input is nil, already has a trace, or the capture was non-empty. |
| `Frames.FramesTextAppend` | error.go:172-184 | Frames render in order: the text of `a + b` is the text of `a` followed by that of `b`. |
| `Frames.Block` | error.go:175-180 | A frame renders as nothing exactly when both its function and file are empty, as the zero frame's are. A known function opens the block on its own line. |
| `Frames.FramesTextLineCount` | error.go:175-180 | Frames with a non-empty function and file, neither containing a line break, render as exactly two lines each. |
| `Frames.FramesString` | error.go:170-186 | The do-while loop builds the block text of the resolved frames in order. An empty resolution renders as `""`. |
| `Frames.Descriptor` | error.go:196 | Every field reads back: the descriptor is the function, `:`, the file, `:`, then the line, and the text after its last `:` parses back to the line number. |
| `Frames.MarshalLogArray` | error.go:192-202 | The method appends exactly one descriptor per resolved frame, in order. An empty resolution yields the single descriptor `"::0"`. |
| `Frames.FrameString` | error.go:220-222 | Every field reads back: the output is the name, a space, the file, `:`, then the line, and the text after its last `:` parses back to the line number. |
| `Decimal.ShowRoundTrip` | error.go:179 | `%d` printing of a line number can be read back to the same integer. |
| `Format.Format` | error.go:36-53 | Verb `v` without `+` gives exactly `Error()`. With `+` it gives `Error()`, a newline, and the text of the chain's stack trace. Any other verb writes nothing. |
| `Scenarios.WithStackOnBareError` | error_test.go:30-36 | `WithStack(errors.New("root cause"))` renders `"root cause"` and unwraps to the original. |
| `Scenarios.StackTraceThroughForeignWrapper` | error_test.go:39-49 | A bare error has no trace. After `WithStack` it has the captured one, and a `%w` wrapper still reports it. |
| `Scenarios.WithMessageRendering` | error_test.go:52-58 | Both `WithMessage` and `WithMessagef` on `"raw"` render `"can not open config file: raw"`. |
| `Scenarios.MiddleStackIsFound` | error.go:154-165 | When only a middle `*Error` of the chain holds a stack, the traversal reports that stack. |
| `Scenarios.LongestStackWins` | error.go:154-165 | Of a head and a root stack, the longer one is reported, and the head's when both are equally long. |
| `Scenarios.WrappedIsOriginal` | error_test.go:87-90 | With `original := New("foo")`, `errors.Is(WithMessage(original, "bar"), original)` holds. This relies on the structural comparison listed under "## Left out"; in Go it holds because the same pointer is compared with itself. |

## Edge behaviour of the code

The model follows error.go in each of these cases:

- **Empty cause text.** The separator `": "` is omitted only when the message is empty. It is still written when the cause's own text is empty, so `Node("a", cause rendering "")` renders `"a: "`.
- **`ZapField` when no stack exists.** `ZapField` produces an absent field only when the chain holds no `*Error`. A chain whose `*Error`s hold no stack still gives an array field over the empty trace.
- **Empty stacks in `MarshalLogArray`.** The loop runs its body before testing `more`, and the runtime's frame iterator yields the zero frame when nothing resolved. So an empty stack is marshalled as one descriptor, `"::0"`, rather than as no descriptors.
  - The assertion at error_test.go:84 expects the logged array of a `New` error to name the test function. That cannot hold: a `New` error has no stack, so by error.go:193-197 the array is `["::0"]`.

## Left out

- `runtime.Callers`, `runtime.CallersFrames`, `runtime.FuncForPC`: these are foreign platform services.
  - Capture takes the call stack as input.
  - Resolution is the `resolve` parameter, or the frames are passed already resolved.
  - Inlined-frame expansion is part of that resolution.
- `Frames.Frame(i)` and `newFrame` (error.go:188-190, 210-218): they only symbolise one program counter through `runtime.FuncForPC`.
- `fmt.Sprintf` formatting in `Definef`, `Newf`, `NewfWithStack` and `WithMessagef`: these take the formatted text.
- zap types: `ZapField` returns the array's frames as an `Option`, with `None` for the zero `zap.Field`. `MarshalLogArray` always returns a nil error, which is dropped.
- `errors.As` and `errors.Is` on foreign errors that define `As` or `Is` methods, or `Unwrap() []error` (as `errors.Join` does): foreign links have at most one inner error.
- Foreign errors that implement `fmt.Formatter`: they print as their `Error()` text.
- Cyclic foreign chains: a foreign error whose `Unwrap` returns itself (or an earlier link) makes `errors.As` and the loop at error.go:155-165 run forever. The datatype cannot express such a chain, so the model does not cover that non-termination.
- Pointer identity of error values: every value is compared structurally, foreign ones included. In Go, `*Error` values and pointer errors such as the results of `errors.New` compare by identity. So two separately built errors with the same text are equal here but distinct in Go, and sentinel identity in the `io.EOF` style is not modelled. `Is` and the `errors.Is` clauses of `WithMessage` and `WithMessagef` hold under this comparison.
- The comparability gate of `errors.Is`: Go tests `==` only when the target's type is comparable, so a foreign error of a non-comparable type is never found by equality. The model treats every value as comparable.
- A nil `*Error` pointer inside a non-nil interface: it panics in Go and is not modelled.
- Flags of `fmt.State` other than `+`: the source ignores them too. Write errors on the state are ignored as well.
- Go's `int` width for line numbers: line numbers are unbounded integers.
- The logger set-up in the tests and the `reflect` comparability check (error_test.go:92).
