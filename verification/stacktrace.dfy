/** Chain traversal (error.go:147-168): the stack trace of a chain is the
    longest stack held by any `*Error` in it, the one nearest the head when
    several are equally long, and nil when no `*Error` holds a frame. */
module StackTraces {
  import opened ErrorChain

  /** Some link of `c` holds the stack `d`. */
  predicate HeldIn(c: seq<Err>, d: seq<Pc>) {
    exists i :: 0 <= i < |c| && Own(c[i]) == d
  }

  /** The loop of error.go:154-165: `frames` is replaced only by a strictly
      longer stack, so the first longest one met is kept. The accumulator
      never shrinks, and what it ends with is either its start or a stack
      held in the chain. */
  function Walk(err: Option<Err>, frames: seq<Pc>): (r: seq<Pc>)
    ensures |frames| <= |r|
    ensures r == frames || HeldIn(Chain(err), r)
  {
    match err
    case None => frames
    case Some(e) =>
      var next := if e.Node? && |frames| < |e.stack| then e.stack else frames;
      var r := Walk(Unwrap(e), next);
      var c, t := Chain(err), Chain(Unwrap(e));
      assert c == [e] + t;
      if r == frames then r
      else if r == next then
        assert Own(c[0]) == r;
        assert HeldIn(c, r);
        r
      else
        var k :| 0 <= k < |t| && Own(t[k]) == r;
        assert c[k + 1] == t[k];
        assert HeldIn(c, r);
        r
  }

  /** `StackTrace(err)` (error.go:147-168): nil (the empty sequence) when no
      `*Error` is in the chain, otherwise the walk from the first one. */
  function StackTrace(err: Option<Err>): seq<Pc> {
    match FirstNode(err)
    case None => []
    case Some(n) => Walk(Some(n), [])
  }

  /** Reference definition of the selection: the longer of a link's own
      stack and the best of the rest of the chain, the link itself winning a
      tie. */
  function Deepest(err: Option<Err>): seq<Pc> {
    match err
    case None => []
    case Some(e) =>
      var rest := Deepest(Unwrap(e));
      if |Own(e)| < |rest| then rest else Own(e)
  }

  lemma {:induction false} WalkPicksDeepest(err: Option<Err>, frames: seq<Pc>)
    ensures Walk(err, frames) == if |frames| < |Deepest(err)| then Deepest(err) else frames
  {
    match err
    case None =>
    case Some(e) =>
      var next := if e.Node? && |frames| < |e.stack| then e.stack else frames;
      WalkPicksDeepest(Unwrap(e), next);
  }

  lemma {:induction false} DeepestFromFirstNode(err: Option<Err>)
    ensures Deepest(err) == match FirstNode(err)
                            case None => []
                            case Some(n) => Deepest(Some(n))
  {
    match err
    case None =>
    case Some(e) =>
      if !e.Node? {
        DeepestFromFirstNode(Unwrap(e));
      }
  }

  /** The loop of the source computes the reference selection. */
  lemma StackTraceIsDeepest(err: Option<Err>)
    ensures StackTrace(err) == Deepest(err)
  {
    DeepestFromFirstNode(err);
    match FirstNode(err)
    case None =>
    case Some(n) => WalkPicksDeepest(Some(n), []);
  }

  /** No link of `c` holds a stack longer than `d`. */
  predicate NoneLonger(c: seq<Err>, d: seq<Pc>) {
    forall i :: 0 <= i < |c| ==> |Own(c[i])| <= |d|
  }

  /** `d` is the stack of link `i` of `c`, and every earlier link holds a
      strictly shorter one. */
  predicate FirstOfLength(c: seq<Err>, d: seq<Pc>, i: int) {
    0 <= i < |c| && Own(c[i]) == d && forall j :: 0 <= j < i ==> |Own(c[j])| < |d|
  }

  /** One step of the selection: a new head keeps its own stack unless the
      best of the rest is strictly longer. */
  lemma SelectBehind(e: Err, t: seq<Err>, d: seq<Pc>, r: seq<Pc>)
    requires NoneLonger(t, d)
    requires d == [] || exists i :: FirstOfLength(t, d, i)
    requires r == if |Own(e)| < |d| then d else Own(e)
    ensures NoneLonger([e] + t, r)
    ensures r == [] || exists i :: FirstOfLength([e] + t, r, i)
  {
    var c := [e] + t;
    forall i | 0 < i < |c| ensures |Own(c[i])| <= |r| {
      assert c[i] == t[i - 1];
    }
    if |Own(e)| < |d| {
      var k :| FirstOfLength(t, d, k);
      forall j | 0 < j < k + 1 ensures |Own(c[j])| < |d| {
        assert c[j] == t[j - 1];
      }
      assert FirstOfLength(c, r, k + 1);
    } else if r != [] {
      assert FirstOfLength(c, r, 0);
    }
  }

  /** The reference selection is a stack no link exceeds, held by a link
      that every earlier link falls strictly short of. */
  lemma {:induction false} DeepestSelectsFirstLongest(err: Option<Err>)
    ensures NoneLonger(Chain(err), Deepest(err))
    ensures Deepest(err) == [] || exists i :: FirstOfLength(Chain(err), Deepest(err), i)
  {
    match err
    case None =>
    case Some(e) =>
      var u := Unwrap(e);
      var c, r := Chain(err), Deepest(err);
      assert c == [e] + Chain(u);
      DeepestSelectsFirstLongest(u);
      SelectBehind(e, Chain(u), Deepest(u), r);
      if r != [] {
        var k :| FirstOfLength([e] + Chain(u), r, k);
        assert FirstOfLength(c, r, k);
        assert exists i :: FirstOfLength(Chain(err), Deepest(err), i);
      }
  }

  /** The selection rule of error.go:147-168: no `*Error` in the chain holds a
      longer stack than the result; the result is the stack of the first link
      reaching that length; and it is nil exactly when every stack in the
      chain is empty. */
  lemma StackTraceSelectsFirstLongest(err: Option<Err>)
    ensures forall i :: 0 <= i < |Chain(err)| ==> |Own(Chain(err)[i])| <= |StackTrace(err)|
    ensures StackTrace(err) != [] ==>
              exists i :: 0 <= i < |Chain(err)| && Own(Chain(err)[i]) == StackTrace(err)
                          && forall j :: 0 <= j < i ==> |Own(Chain(err)[j])| < |StackTrace(err)|
    ensures StackTrace(err) == [] <==> forall i :: 0 <= i < |Chain(err)| ==> Own(Chain(err)[i]) == []
  {
    StackTraceIsDeepest(err);
    DeepestSelectsFirstLongest(err);
    var c, r := Chain(err), StackTrace(err);
    if r != [] {
      var k :| FirstOfLength(c, r, k);
      assert Own(c[k]) == r && forall j :: 0 <= j < k ==> |Own(c[j])| < |r|;
    }
  }

  /** One step of the traversal at an `*Error` head: its own stack unless the
      rest of the chain holds a strictly longer one. */
  lemma StackTraceOfNode(m: string, c: Option<Err>, s: seq<Pc>)
    ensures StackTrace(Some(Node(m, c, s))) == if |s| < |StackTrace(c)| then StackTrace(c) else s
  {
    StackTraceIsDeepest(Some(Node(m, c, s)));
    StackTraceIsDeepest(c);
  }

  /** A foreign wrapper adds no stack of its own; the traversal sees through
      it (error_test.go:48-49). */
  lemma StackTraceOfForeign(t: string, i: Option<Err>)
    ensures StackTrace(Some(Foreign(t, i))) == StackTrace(i)
  {
    StackTraceIsDeepest(Some(Foreign(t, i)));
    StackTraceIsDeepest(i);
  }

  /** The array field `ZapField` builds (error.go:134-141): absent (the zero
      `zap.Field`) when there is no `*Error` in the chain, otherwise the stack
      trace of the first `*Error`, which is the stack trace of the chain. */
  function ZapField(err: Option<Err>): (r: Option<seq<Pc>>)
    ensures r.None? <==> NodeFree(Chain(err))
    ensures r.Some? ==> r.value == StackTrace(err)
  {
    var first := FirstNode(err);
    if first.None? then None else Some(StackTrace(Some(first.value)))
  }
}
