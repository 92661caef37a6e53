/** `(*Error).Format` (error.go:36-53): the `fmt.Formatter` of an `*Error`.
    Resolving the selected stack trace into frames is the runtime's job and
    enters as the parameter `resolve`. */
module Format {
  import opened ErrorChain
  import opened StackTraces
  import opened Frames

  /** What `Format(s, verb)` writes: for 'v' the rendered chain, and with the
      '+' flag a line break and the chain's stack trace as `Frames.String`
      prints it; for any other verb nothing. */
  function Format(e: Err, verb: char, plus: bool, resolve: seq<Pc> -> seq<Frame>): (r: string)
    requires e.Node?
    ensures verb != 'v' ==> r == ""
    ensures verb == 'v' && !plus ==> r == ErrorText(e)
    ensures verb == 'v' && plus ==> r == ErrorText(e) + "\n" + FramesText(resolve(StackTrace(Some(e))))
    ensures verb == 'v' && plus && StackTrace(Some(e)) == [] && resolve([]) == [] ==> r == ErrorText(e) + "\n"
  {
    if verb != 'v' then ""
    else
      PrintIsText(e);
      Print(e) + if plus then "\n" + FramesText(resolve(StackTrace(Some(e)))) else ""
  }
}
