/** Stack capture (error.go:224-234). The goroutine's stack is an input:
    `callStack` is what `runtime.Callers` sees, innermost first, its element 0
    being `runtime.Callers` itself. The skip depth and the 32-entry buffer
    are modelled; which frames a given call site yields is not. */
module Capture {
  import opened ErrorChain

  /** The length of the buffer `caller` and `callerSkip` hand to
      `runtime.Callers`. */
  const MaxFrames: nat := 32

  /** `callerSkip(skip)` (error.go:230-234): the frames after the first `skip`
      ones, at most `MaxFrames` of them. */
  function CallerSkip(callStack: seq<Pc>, skip: nat): (pcs: seq<Pc>)
    ensures |pcs| == if skip >= |callStack| then 0
                     else if |callStack| - skip < MaxFrames then |callStack| - skip
                     else MaxFrames
    ensures forall i :: 0 <= i < |pcs| ==> pcs[i] == callStack[skip + i]
  {
    if skip >= |callStack| then []
    else
      var rest := callStack[skip..];
      if |rest| <= MaxFrames then rest else rest[..MaxFrames]
  }

  /** `caller()` (error.go:224-228): skips `runtime.Callers`, `caller` and the
      exported constructor, so the first frame kept is that constructor's
      call site. */
  function Caller(callStack: seq<Pc>): (pcs: seq<Pc>)
    ensures |pcs| == if |callStack| <= 3 then 0
                     else if |callStack| - 3 < MaxFrames then |callStack| - 3
                     else MaxFrames
    ensures |pcs| <= MaxFrames
    ensures |callStack| > 3 <==> |pcs| > 0
    ensures forall i :: 0 <= i < |pcs| ==> 3 + i < |callStack| && pcs[i] == callStack[3 + i]
  {
    CallerSkip(callStack, 3)
  }
}
