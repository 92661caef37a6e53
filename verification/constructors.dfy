/** The constructors of error.go:55-132. Messages built with `fmt.Sprintf`
    (`Definef`, `Newf`, `NewfWithStack`, `WithMessagef`) take the already
    formatted text; the capturing ones take the call stack `runtime.Callers`
    would see (see module Capture). */
module Constructors {
  import opened ErrorChain
  import opened StackTraces
  import opened Capture

  /** `Define(msg)` (error.go:64-67): a root `*Error` with no stack. */
  function Define(msg: string): (r: Err)
    ensures r.Node? && Unwrap(r) == None
    ensures StackTrace(Some(r)) == []
    ensures Text(r) == msg
  {
    StackTraceOfNode(msg, None, []);
    Node(msg, None, [])
  }

  /** `Definef(format, args...)` (error.go:69-72) given the formatted text. */
  function Definef(formatted: string): (r: Err)
    ensures r.Node? && Unwrap(r) == None
    ensures StackTrace(Some(r)) == []
    ensures Text(r) == formatted
  {
    StackTraceOfNode(formatted, None, []);
    Node(formatted, None, [])
  }

  /** `New(msg)` (error.go:74-77). */
  function New(msg: string): (r: Err)
    ensures r.Node? && Unwrap(r) == None
    ensures StackTrace(Some(r)) == []
    ensures Text(r) == msg
  {
    StackTraceOfNode(msg, None, []);
    Node(msg, None, [])
  }

  /** `Newf(format, a...)` (error.go:79-82) given the formatted text. */
  function Newf(formatted: string): (r: Err)
    ensures r.Node? && Unwrap(r) == None
    ensures StackTrace(Some(r)) == []
    ensures Text(r) == formatted
  {
    StackTraceOfNode(formatted, None, []);
    Node(formatted, None, [])
  }

  /** `NewWithStack(msg)` (error.go:84-88): a root `*Error` whose stack trace
      is the captured one. */
  function NewWithStack(msg: string, callStack: seq<Pc>): (r: Err)
    ensures r.Node? && Unwrap(r) == None
    ensures StackTrace(Some(r)) == Caller(callStack)
    ensures Text(r) == msg
  {
    StackTraceOfNode(msg, None, Caller(callStack));
    Node(msg, None, Caller(callStack))
  }

  /** `NewfWithStack(format, a...)` (error.go:90-94) given the formatted text. */
  function NewfWithStack(formatted: string, callStack: seq<Pc>): (r: Err)
    ensures r.Node? && Unwrap(r) == None
    ensures StackTrace(Some(r)) == Caller(callStack)
    ensures Text(r) == formatted
  {
    StackTraceOfNode(formatted, None, Caller(callStack));
    Node(formatted, None, Caller(callStack))
  }

  /** The common shape of `WithStack`, `withStack` and `(*Error).WithStack`
      once the stack `pcs` has been captured: nil stays nil, a chain that
      already has a stack trace is returned as it is, and any other error
      becomes the cause of a new message-less `*Error` holding `pcs`. */
  function Annotate(err: Option<Err>, pcs: seq<Pc>): (r: Option<Err>)
    ensures err.None? ==> r.None?
    ensures err.Some? && StackTrace(err) != [] ==> r == err
    ensures err.Some? && StackTrace(err) == [] ==>
              r.Some? && r.value.Node? && r.value.msg == "" && Unwrap(r.value) == err
    ensures err.Some? ==> StackTrace(r) == if StackTrace(err) != [] then StackTrace(err) else pcs
    ensures r.Some? ==> err.Some? && Text(r.value) == Text(err.value)
  {
    match err
    case None => None
    case Some(e) =>
      if StackTrace(err) == [] then
        StackTraceOfNode("", err, pcs);
        PrintIsText(e);
        Some(Node("", err, pcs))
      else err
  }

  /** `WithStack(err)` (error.go:96-106). */
  function WithStack(err: Option<Err>, callStack: seq<Pc>): (r: Option<Err>)
    ensures err.None? <==> r.None?
    ensures err.Some? && StackTrace(err) != [] ==> r == err
    ensures err.Some? && StackTrace(err) == [] ==>
              r.Some? && r.value.Node? && r.value.msg == "" && Unwrap(r.value) == err
    ensures err.Some? ==> StackTrace(r) == if StackTrace(err) != [] then StackTrace(err) else Caller(callStack)
    ensures r.Some? ==> Text(r.value) == Text(err.value)
  {
    Annotate(err, Caller(callStack))
  }

  /** `withStack(err, skip)` (error.go:108-116): as `WithStack`, capturing
      with an explicit skip depth. */
  function WithStackSkip(err: Option<Err>, skip: nat, callStack: seq<Pc>): (r: Option<Err>)
    ensures err.None? <==> r.None?
    ensures err.Some? && StackTrace(err) != [] ==> r == err
    ensures err.Some? && StackTrace(err) == [] ==>
              r.Some? && r.value.Node? && r.value.msg == "" && Unwrap(r.value) == err
    ensures err.Some? ==> StackTrace(r) == if StackTrace(err) != [] then StackTrace(err) else CallerSkip(callStack, skip)
    ensures r.Some? ==> Text(r.value) == Text(err.value)
  {
    Annotate(err, CallerSkip(callStack, skip))
  }

  /** `(*Error).WithStack()` (error.go:55-57): `withStack(e, 4)`, one frame
      deeper than `WithStack` because of the method's own frame. */
  function ErrorWithStack(e: Err, callStack: seq<Pc>): (r: Option<Err>)
    requires e.Node?
    ensures r.Some?
    ensures StackTrace(Some(e)) != [] ==> r.value == e
    ensures StackTrace(Some(e)) == [] ==> r.value.Node? && r.value.msg == "" && Unwrap(r.value) == Some(e)
    ensures StackTrace(r) == if StackTrace(Some(e)) != [] then StackTrace(Some(e)) else CallerSkip(callStack, 4)
    ensures Text(r.value) == Text(e)
  {
    WithStackSkip(Some(e), 4, callStack)
  }

  /** `WithMessage(err, msg)` (error.go:118-124): always a new `*Error` whose
      cause is `err` (nil included); it captures a stack only when `err` has
      no stack trace, so an existing trace is kept. */
  function WithMessage(err: Option<Err>, msg: string, callStack: seq<Pc>): (r: Err)
    ensures r.Node? && r.msg == msg && Unwrap(r) == err
    ensures err.Some? ==> Is(Some(r), err.value)
    ensures StackTrace(err) != [] ==> r.stack == []
    ensures StackTrace(err) == [] ==> r.stack == Caller(callStack)
    ensures StackTrace(Some(r)) == if StackTrace(err) != [] then StackTrace(err) else Caller(callStack)
    ensures Text(r) == if err.None? then msg
                       else if msg == "" then Text(err.value)
                       else msg + ": " + Text(err.value)
  {
    var st := if StackTrace(err) == [] then Caller(callStack) else [];
    StackTraceOfNode(msg, err, st);
    assert err.Some? ==> Print(err.value) == Text(err.value) by {
      if err.Some? { PrintIsText(err.value); }
    }
    Node(msg, err, st)
  }

  /** `WithMessagef(err, format, a...)` (error.go:126-132) given the formatted
      text. */
  function WithMessagef(err: Option<Err>, formatted: string, callStack: seq<Pc>): (r: Err)
    ensures r.Node? && r.msg == formatted && Unwrap(r) == err
    ensures err.Some? ==> Is(Some(r), err.value)
    ensures StackTrace(err) != [] ==> r.stack == []
    ensures StackTrace(err) == [] ==> r.stack == Caller(callStack)
    ensures StackTrace(Some(r)) == if StackTrace(err) != [] then StackTrace(err) else Caller(callStack)
    ensures Text(r) == if err.None? then formatted
                       else if formatted == "" then Text(err.value)
                       else formatted + ": " + Text(err.value)
  {
    var st := if StackTrace(err) == [] then Caller(callStack) else [];
    StackTraceOfNode(formatted, err, st);
    assert err.Some? ==> Print(err.value) == Text(err.value) by {
      if err.Some? { PrintIsText(err.value); }
    }
    Node(formatted, err, st)
  }

  /** Attaching a stack is idempotent exactly when the first call leaves the
      chain with a stack trace: a second `WithStack` then returns its input.
      Only a capture that came back empty lets a second call wrap again. */
  lemma WithStackIdempotent(err: Option<Err>, callStack1: seq<Pc>, callStack2: seq<Pc>)
    ensures WithStack(WithStack(err, callStack1), callStack2) == WithStack(err, callStack1)
        <==> err.None? || StackTrace(err) != [] || Caller(callStack1) != []
  {
    var once := WithStack(err, callStack1);
    if err.Some? && StackTrace(err) == [] && Caller(callStack1) == [] {
      var twice := WithStack(once, callStack2);
      assert Unwrap(twice.value) == once;
      assert twice != once;
    }
  }
}
