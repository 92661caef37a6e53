/** The error chain: `*Error` nodes (error.go:14-18) and the foreign error
    values they may wrap, the single-step unwrap, the walk that `errors.As`
    and `errors.Is` perform, and the rendering of messages (error.go:20-53). */
module ErrorChain {

  /** Go's `error` interface value: `None` is the nil error. */
  datatype Option<+T> = None | Some(value: T)

  /** A raw program counter as captured by `runtime.Callers`. */
  type Pc = nat

  /** One link of a chain. `Node` is an `*Error`; `Foreign` is any error this
      library did not build (`errors.New`, a `fmt.Errorf("%w")` wrapper, ...),
      carrying the text its `Error()` returns and, when it has an
      `Unwrap() error` method, the error it wraps. */
  datatype Err =
    | Node(msg: string, cause: Option<Err>, stack: seq<Pc>)
    | Foreign(text: string, inner: Option<Err>)

  /** `errors.Unwrap`: the cause of an `*Error` (error.go:32-34) or the
      wrapped value of a foreign wrapper. */
  function Unwrap(e: Err): Option<Err> {
    match e
    case Node(_, c, _) => c
    case Foreign(_, i) => i
  }

  /** Every value met by repeated unwrapping, head first. */
  function Chain(err: Option<Err>): (c: seq<Err>)
    ensures err.None? <==> |c| == 0
    ensures err.Some? ==> c[0] == err.value
  {
    match err
    case None => []
    case Some(e) => [e] + Chain(Unwrap(e))
  }

  /** The stack a chain link carries: foreign errors carry none. */
  function Own(e: Err): seq<Pc> {
    if e.Node? then e.stack else []
  }

  /** No link of the sequence is an `*Error`. */
  predicate NodeFree(c: seq<Err>) {
    forall i :: 0 <= i < |c| ==> !c[i].Node?
  }

  /** The position of the first `*Error` of `c` holds `n`. */
  predicate FirstNodeAt(c: seq<Err>, n: Err, i: int) {
    0 <= i < |c| && c[i] == n && n.Node? && forall j :: 0 <= j < i ==> !c[j].Node?
  }

  /** Putting a foreign link in front of a sequence changes neither whether it
      holds an `*Error` nor which one comes first. */
  lemma FirstNodeBehindForeign(e: Err, t: seq<Err>, r: Option<Err>)
    requires !e.Node?
    requires r.None? <==> NodeFree(t)
    requires r.Some? ==> exists i :: FirstNodeAt(t, r.value, i)
    ensures r.None? <==> NodeFree([e] + t)
    ensures r.Some? ==> exists i :: FirstNodeAt([e] + t, r.value, i)
  {
    var c := [e] + t;
    if NodeFree(t) {
      forall i | 0 < i < |c| ensures !c[i].Node? {
        assert c[i] == t[i - 1];
      }
    }
    if NodeFree(c) {
      forall i | 0 <= i < |t| ensures !t[i].Node? {
        assert c[i + 1] == t[i];
      }
    }
    if r.Some? {
      var k :| FirstNodeAt(t, r.value, k);
      forall j | 0 < j < k + 1 ensures !c[j].Node? {
        assert c[j] == t[j - 1];
      }
      assert FirstNodeAt(c, r.value, k + 1);
    }
  }

  /** `errors.As(err, &sErr)` with `sErr *Error`: the first `*Error` met by
      unwrapping, if any. */
  function FirstNode(err: Option<Err>): (r: Option<Err>)
    ensures r.None? <==> NodeFree(Chain(err))
    ensures r.Some? ==> exists i :: FirstNodeAt(Chain(err), r.value, i)
  {
    match err
    case None => None
    case Some(e) =>
      if e.Node? then
        assert FirstNodeAt(Chain(err), e, 0);
        Some(e)
      else
        var r := FirstNode(Unwrap(e));
        FirstNodeBehindForeign(e, Chain(Unwrap(e)), r);
        r
  }

  /** `errors.Is(err, target)` on values without an `Is` method: equality
      with some value of the chain. Go compares pointer errors (`*Error`,
      `errors.New` results) by identity and skips values of non-comparable
      types; every value is compared structurally here. */
  function Is(err: Option<Err>, target: Err): (r: bool)
    ensures r <==> target in Chain(err)
  {
    match err
    case None => false
    case Some(e) => e == target || Is(Unwrap(e), target)
  }

  /** What `fmt.Fprint(w, e)` writes. An `*Error` implements `fmt.Formatter`,
      so fmt calls its `Format` with verb 'v' and no flags (error.go:39-47);
      a foreign error prints its `Error()` text. */
  function Print(e: Err): (r: string)
    ensures e.Node? ==> |r| >= |e.msg| && r[..|e.msg|] == e.msg
    ensures e.Node? && e.cause.None? ==> r == e.msg
  {
    match e
    case Foreign(t, _) => t
    case Node(m, c, _) =>
      (if m != "" then m else "")
      + match c
        case None => ""
        case Some(x) => (if m != "" then ": " else "") + Print(x)
  }

  /** `(*Error).Error()` (error.go:20-30): the message, then, when a cause
      exists, ": " if anything was written so far, then the cause printed. */
  function ErrorText(e: Err): (r: string)
    requires e.Node?
    ensures |r| >= |e.msg| && r[..|e.msg|] == e.msg
    ensures e.cause.None? ==> r == e.msg
  {
    var b := e.msg;
    match e.cause
    case None => b
    case Some(x) => b + (if |b| != 0 then ": " else "") + Print(x)
  }

  /** The `Error()` text of any chain value. */
  function Text(e: Err): string {
    if e.Node? then ErrorText(e) else e.text
  }

  /** The two rendering paths of an `*Error`, `Error()` and `Format` with a
      plain 'v', agree, so printing any value gives its `Error()` text. */
  lemma PrintIsText(e: Err)
    ensures Print(e) == Text(e)
  {
  }

  /** The pieces a rendering is made of: every non-empty message along the
      `*Error` prefix of the chain, then the message of the last `*Error`
      (even when empty) or the text of the first foreign value. */
  function Segments(e: Err): (ss: seq<string>)
    ensures |ss| > 0
  {
    match e
    case Foreign(t, _) => [t]
    case Node(m, None, _) => [m]
    case Node(m, Some(x), _) => if m != "" then [m] + Segments(x) else Segments(x)
  }

  function Join(ss: seq<string>, sep: string): string {
    if |ss| == 0 then ""
    else if |ss| == 1 then ss[0]
    else ss[0] + sep + Join(ss[1..], sep)
  }

  /** A rendered chain is its segments joined by ": ": each wrapper puts its
      message in front of its cause's text, and a wrapper with an empty
      message renders exactly as its cause. */
  lemma {:induction false} TextIsJoinedSegments(e: Err)
    ensures Text(e) == Join(Segments(e), ": ")
  {
    PrintIsText(e);
    match e
    case Foreign(_, _) =>
    case Node(m, None, _) =>
    case Node(m, Some(x), _) =>
      TextIsJoinedSegments(x);
      PrintIsText(x);
      if m != "" {
        var ss := [m] + Segments(x);
        assert ss[1..] == Segments(x);
      }
  }
}
