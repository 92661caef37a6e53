/** Rendering of captured frames (error.go:170-222). Resolving program
    counters (`runtime.CallersFrames`, `runtime.FuncForPC`) is not modelled:
    the operations here take the frames the runtime resolved, in the order
    its iterator yields them. */
module Frames {
  import opened Decimal

  /** A resolved location: `runtime.Frame`'s Function, File and Line, or the
      Name, File and Line of error.go:204-208. */
  datatype Frame = Frame(name: string, file: string, line: int)

  /** What `Next()` returns once nothing is left: the zero `runtime.Frame`. */
  const ZeroFrame := Frame("", "", 0)

  /** The frames the do-while loops of error.go:173-184 and 194-200 visit:
      the body runs at least once, and on an empty resolution `Next()` hands
      it the zero frame. */
  function Visited(resolved: seq<Frame>): (fs: seq<Frame>)
    ensures |fs| > 0
  {
    if |resolved| == 0 then [ZeroFrame] else resolved
  }

  /** The text error.go:175-180 writes for one frame. */
  function Block(f: Frame): (r: string)
    ensures r == "" <==> f.name == "" && f.file == ""
    ensures f.name != "" ==> |r| > |f.name| && r[..|f.name| + 1] == f.name + "\n"
  {
    (if f.name != "" then f.name + "\n" else "")
    + (if f.file != "" then "    " + f.file + ":" + Show(f.line) + "\n" else "")
  }

  /** The renderings of the elements of a sequence, concatenated in order. */
  function Concat<T>(xs: seq<T>, render: T -> string): string {
    if |xs| == 0 then "" else Concat(xs[..|xs| - 1], render) + render(xs[|xs| - 1])
  }

  lemma {:induction false} ConcatAppend<T>(a: seq<T>, b: seq<T>, render: T -> string)
    ensures Concat(a + b, render) == Concat(a, render) + Concat(b, render)
    decreases |b|
  {
    if |b| == 0 {
      assert a + b == a;
    } else {
      var front, last := b[..|b| - 1], b[|b| - 1];
      assert (a + b)[..|a + b| - 1] == a + front;
      assert (a + b)[|a + b| - 1] == last;
      ConcatAppend(a, front, render);
    }
  }

  /** Reference definition of `Frames.String`: the blocks of the frames, in
      order. */
  function FramesText(fs: seq<Frame>): string {
    Concat(fs, Block)
  }

  /** Rendering respects order: the text of a sequence of frames is the
      text of its front followed by the text of its back. */
  lemma FramesTextAppend(a: seq<Frame>, b: seq<Frame>)
    ensures FramesText(a + b) == FramesText(a) + FramesText(b)
  {
    ConcatAppend(a, b, Block);
  }

  function CountNewlines(s: string): nat {
    if |s| == 0 then 0 else CountNewlines(s[..|s| - 1]) + (if s[|s| - 1] == '\n' then 1 else 0)
  }

  lemma {:induction false} CountNewlinesAppend(a: string, b: string)
    ensures CountNewlines(a + b) == CountNewlines(a) + CountNewlines(b)
    decreases |b|
  {
    if |b| == 0 {
      assert a + b == a;
    } else {
      assert (a + b)[..|a + b| - 1] == a + b[..|b| - 1];
      assert (a + b)[|a + b| - 1] == b[|b| - 1];
      CountNewlinesAppend(a, b[..|b| - 1]);
    }
  }

  lemma {:induction false} NoNewlines(s: string)
    requires '\n' !in s
    ensures CountNewlines(s) == 0
    decreases |s|
  {
    if |s| > 0 {
      assert s[|s| - 1] in s;
      assert forall c :: c in s[..|s| - 1] ==> c in s;
      NoNewlines(s[..|s| - 1]);
    }
  }

  /** A frame whose function and file are known, neither holding a line
      break. */
  predicate WellKnown(f: Frame) {
    f.name != "" && f.file != "" && '\n' !in f.name && '\n' !in f.file
  }

  lemma BlockLineCount(f: Frame)
    requires WellKnown(f)
    ensures CountNewlines(Block(f)) == 2
  {
    ShowHasNoSeparators(f.line);
    var loc := "    " + f.file + ":" + Show(f.line);
    assert '\n' !in loc by {
      assert forall c :: c in loc ==> c in "    :" || c in f.file || c in Show(f.line);
    }
    NoNewlines(f.name);
    NoNewlines(loc);
    CountNewlinesAppend(f.name, "\n");
    CountNewlinesAppend(loc, "\n");
    CountNewlinesAppend(f.name + "\n", loc + "\n");
    assert Block(f) == (f.name + "\n") + (loc + "\n");
  }

  /** For frames whose function and file are known, the text is a block of
      exactly two lines per frame: the function, then the indented
      `file:line`. */
  lemma {:induction false} FramesTextLineCount(fs: seq<Frame>)
    requires forall i :: 0 <= i < |fs| ==> WellKnown(fs[i])
    ensures CountNewlines(FramesText(fs)) == 2 * |fs|
    decreases |fs|
  {
    if |fs| > 0 {
      var f := fs[|fs| - 1];
      FramesTextLineCount(fs[..|fs| - 1]);
      BlockLineCount(f);
      CountNewlinesAppend(FramesText(fs[..|fs| - 1]), Block(f));
    }
  }

  /** `Frames.String()` (error.go:170-186), the loop as written: it renders
      the resolved frames in order, and an empty resolution renders as the
      empty string. */
  method FramesString(resolved: seq<Frame>) returns (s: string)
    ensures s == FramesText(resolved)
  {
    var frames := Visited(resolved);
    s := "";
    var i := 0;
    while i < |frames|
      invariant 0 <= i <= |frames|
      invariant s == FramesText(frames[..i])
    {
      var f := frames[i];
      var written := "";
      if f.name != "" {
        written := f.name + "\n";
      }
      if f.file != "" {
        written := written + ("    " + f.file + ":" + Show(f.line) + "\n");
      }
      assert written == Block(f);
      assert frames[..i + 1][..i] == frames[..i];
      assert FramesText(frames[..i + 1]) == FramesText(frames[..i]) + Block(f);
      s := s + written;
      i := i + 1;
    }
    assert frames[..i] == frames;
    if |resolved| == 0 {
      assert FramesText(frames) == FramesText([]) + Block(ZeroFrame);
    }
  }

  /** The text after the last ':' (all of it when there is none). */
  function AfterLastColon(s: string): (t: string)
    ensures ':' !in t
  {
    if |s| == 0 then ""
    else if s[|s| - 1] == ':' then ""
    else AfterLastColon(s[..|s| - 1]) + [s[|s| - 1]]
  }

  lemma {:induction false} AfterLastColonOf(p: string, d: string)
    requires ':' !in d
    ensures AfterLastColon(p + ":" + d) == d
    decreases |d|
  {
    var s := p + ":" + d;
    if |d| > 0 {
      var front, last := d[..|d| - 1], d[|d| - 1];
      assert s[..|s| - 1] == p + ":" + front;
      assert s[|s| - 1] == last;
      assert last != ':' by { assert last in d; }
      assert ':' !in front by {
        assert forall k :: 0 <= k < |front| ==> front[k] == d[k];
      }
      AfterLastColonOf(p, front);
      assert front + [last] == d;
    } else {
      assert s == p + ":";
      assert s[|s| - 1] == ':';
    }
  }

  /** The text after the last ':' of a string ending in ':' and a rendered
      line number reads back as that number. */
  lemma LineAfterLastColon(p: string, line: int)
    ensures Parse(AfterLastColon(p + ":" + Show(line))) == Number(line)
  {
    ShowHasNoSeparators(line);
    AfterLastColonOf(p, Show(line));
    ShowRoundTrip(line);
  }

  /** The `function:file:line` string error.go:196 appends for a frame. It
      reads back field by field: the function name, a ':', the file, a ':',
      and the line number, which is also the text after its last ':'. */
  function Descriptor(f: Frame): (r: string)
    ensures |r| == |f.name| + |f.file| + |Show(f.line)| + 2
    ensures r[..|f.name| + 1] == f.name + ":"
    ensures r[|f.name| + 1 .. |r| - |Show(f.line)| - 1] == f.file
    ensures r[|r| - |Show(f.line)| - 1] == ':'
    ensures Parse(AfterLastColon(r)) == Number(f.line)
  {
    var head := f.name + ":";
    var r := f.name + ":" + f.file + ":" + Show(f.line);
    assert r == head + f.file + (":" + Show(f.line));
    assert r[..|head|] == head;
    assert r[|head| .. |head| + |f.file|] == f.file;
    LineAfterLastColon(f.name + ":" + f.file, f.line);
    r
  }

  lemma ZeroDescriptor()
    ensures Descriptor(ZeroFrame) == "::0"
  {
    assert Show(0) == ['0'];
  }

  /** The images of the elements of a sequence, in order. */
  function MapSeq<T, U>(xs: seq<T>, f: T -> U): seq<U> {
    if |xs| == 0 then [] else MapSeq(xs[..|xs| - 1], f) + [f(xs[|xs| - 1])]
  }

  lemma {:induction false} MapSeqAt<T, U>(xs: seq<T>, f: T -> U)
    ensures |MapSeq(xs, f)| == |xs|
    ensures forall i :: 0 <= i < |xs| ==> MapSeq(xs, f)[i] == f(xs[i])
    decreases |xs|
  {
    if |xs| > 0 {
      var front := xs[..|xs| - 1];
      MapSeqAt(front, f);
      assert forall i :: 0 <= i < |front| ==> xs[i] == front[i];
    }
  }

  /** `Frames.MarshalLogArray` (error.go:192-202), the loop as written: one
      descriptor per resolved frame, in order. With nothing resolved the loop
      still runs once, on the zero frame, and appends "::0". */
  method MarshalLogArray(resolved: seq<Frame>) returns (arr: seq<string>)
    ensures |resolved| > 0 ==> |arr| == |resolved|
    ensures |resolved| > 0 ==> forall i :: 0 <= i < |arr| ==> arr[i] == Descriptor(resolved[i])
    ensures |resolved| == 0 ==> arr == ["::0"]
  {
    var frames := Visited(resolved);
    arr := [];
    var i := 0;
    while i < |frames|
      invariant 0 <= i <= |frames|
      invariant arr == MapSeq(frames[..i], Descriptor)
    {
      assert frames[..i + 1][..i] == frames[..i];
      arr := arr + [Descriptor(frames[i])];
      i := i + 1;
    }
    assert frames[..i] == frames;
    MapSeqAt(frames, Descriptor);
    if |resolved| == 0 {
      ZeroDescriptor();
    }
  }

  /** `(*Frame).String()` (error.go:220-222): the name, a space, then
      `file:line`; every field reads back, the line number from after the
      last ':'. */
  function FrameString(f: Frame): (r: string)
    ensures |r| == |f.name| + |f.file| + |Show(f.line)| + 2
    ensures r[..|f.name| + 1] == f.name + " "
    ensures r[|f.name| + 1 .. |r| - |Show(f.line)| - 1] == f.file
    ensures r[|r| - |Show(f.line)| - 1] == ':'
    ensures Parse(AfterLastColon(r)) == Number(f.line)
  {
    var head := f.name + " ";
    var r := f.name + " " + f.file + ":" + Show(f.line);
    assert r == head + f.file + (":" + Show(f.line));
    assert r[..|head|] == head;
    assert r[|head| .. |head| + |f.file|] == f.file;
    LineAfterLastColon(f.name + " " + f.file, f.line);
    r
  }
}
