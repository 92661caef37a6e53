/** The situations error_test.go exercises, stated over the model. */
module Scenarios {
  import opened ErrorChain
  import opened StackTraces
  import opened Capture
  import opened Constructors

  /** `errors.New(text)`: a foreign error with nothing beneath it. */
  function Bare(text: string): Err {
    Foreign(text, None)
  }

  /** error_test.go:30-36: wrapping a bare error with a stack keeps its text
      and makes it reachable through `Unwrap`. */
  lemma WithStackOnBareError(callStack: seq<Pc>)
    ensures WithStack(Some(Bare("root cause")), callStack).Some?
    ensures Text(WithStack(Some(Bare("root cause")), callStack).value) == "root cause"
    ensures Unwrap(WithStack(Some(Bare("root cause")), callStack).value) == Some(Bare("root cause"))
  {
    StackTraceOfForeign("root cause", None);
  }

  /** error_test.go:39-49: a bare error has no stack trace; once wrapped with a
      non-empty capture it has one, and a `fmt.Errorf("%w")` wrapper around
      that still reports it. */
  lemma StackTraceThroughForeignWrapper(callStack: seq<Pc>, wrapperText: string)
    requires |callStack| > 3
    ensures StackTrace(Some(Bare("bare"))) == []
    ensures StackTrace(WithStack(Some(Bare("bare")), callStack)) == Caller(callStack)
    ensures StackTrace(Some(Foreign(wrapperText, WithStack(Some(Bare("bare")), callStack)))) == Caller(callStack)
    ensures Caller(callStack) != []
  {
    StackTraceOfForeign("bare", None);
    StackTraceOfForeign(wrapperText, WithStack(Some(Bare("bare")), callStack));
  }

  /** error_test.go:52-58: a message is put in front of the cause's text. */
  lemma WithMessageRendering(callStack: seq<Pc>)
    ensures Text(WithMessage(Some(Bare("raw")), "can not open config file", callStack))
            == "can not open config file: raw"
    ensures Text(WithMessagef(Some(Bare("raw")), "can not open config file", callStack))
            == "can not open config file: raw"
  {
  }

  /** error_test.go:87-90: the original error stays in the chain of a
      message wrapper, so `errors.Is` finds it. The test compares one value,
      `original`, with itself; values here are compared structurally. */
  lemma WrappedIsOriginal(callStack: seq<Pc>)
    ensures var original := New("foo");
            Is(Some(WithMessage(Some(original), "bar", callStack)), original)
  {
  }

  /** Only a middle link holds a stack: that stack is the chain's trace. */
  lemma MiddleStackIsFound(s: seq<Pc>, bottom: Err)
    requires StackTrace(Some(bottom)) == []
    ensures StackTrace(Some(Node("head", Some(Node("middle", Some(bottom), s)), []))) == s
  {
    StackTraceOfNode("middle", Some(bottom), s);
    StackTraceOfNode("head", Some(Node("middle", Some(bottom), s)), []);
  }

  /** A deeper, longer stack beats a shallower one at the head; equal lengths
      keep the head's. */
  lemma LongestStackWins(shallow: seq<Pc>, deep: seq<Pc>)
    ensures StackTrace(Some(Node("head", Some(Node("root", None, deep)), shallow)))
            == if |shallow| < |deep| then deep else shallow
  {
    StackTraceOfNode("root", None, deep);
    StackTraceOfNode("head", Some(Node("root", None, deep)), shallow);
  }
}
