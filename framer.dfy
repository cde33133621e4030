/**
 * The brace-counting scanner of the streaming write callback, as a left fold
 * over the characters of one chunk. `depth` is the callback's bracket counter,
 * `partial` the text collected since the last cut and `frames` the objects cut
 * so far, in scan order.
 */
module Framer {

  datatype Framing = Framing(depth: nat, partial: string, frames: seq<string>)

  /** The state at the start of every call: nothing is carried over from earlier chunks. */
  const Start := Framing(0, "", [])

  /** One character: `{` opens, characters at depth 0 are dropped, a `}` that brings the depth back to 0 cuts a frame. */
  function FrameStep(f: Framing, c: char): Framing {
    if c == '{' then Framing(f.depth + 1, f.partial + [c], f.frames)
    else if f.depth == 0 then f
    else if c != '}' then Framing(f.depth, f.partial + [c], f.frames)
    else if f.depth == 1 then Framing(0, "", f.frames + [f.partial + [c]])
    else Framing(f.depth - 1, f.partial + [c], f.frames)
  }

  function ScanFrom(f: Framing, s: string): Framing
    decreases |s|
  {
    if s == [] then f else FrameStep(ScanFrom(f, s[..|s| - 1]), s[|s| - 1])
  }

  function Scan(s: string): Framing {
    ScanFrom(Start, s)
  }

  /** The frames the scanner cuts out of one chunk. */
  function Frames(s: string): seq<string> {
    Scan(s).frames
  }

  function Delta(c: char): int {
    if c == '{' then 1 else if c == '}' then -1 else 0
  }

  /** Net brace count of a string: opening braces minus closing braces. */
  function Depth(s: string): int
    decreases |s|
  {
    if s == [] then 0 else Depth(s[..|s| - 1]) + Delta(s[|s| - 1])
  }

  /** A brace-balanced object: it opens with `{` and its depth first returns to 0 at its last character. */
  predicate IsObject(o: string) {
    |o| >= 2 && o[0] == '{' && Depth(o) == 0 &&
    forall k | 1 <= k < |o| :: Depth(o[..k]) > 0
  }

  /** Text the scanner skips at depth 0: it holds no `{` (a stray `}` is allowed). */
  predicate NoOpenBrace(s: string) {
    forall i | 0 <= i < |s| :: s[i] != '{'
  }

  predicate IsInfix(f: string, s: string) {
    exists i, j | 0 <= i <= j <= |s| :: s[i..j] == f
  }

  /** The scanner's invariant: an open object is collected from its `{`, and everything cut is an object. */
  predicate Consistent(f: Framing) {
    (f.depth == 0 <==> f.partial == []) &&
    (f.partial != [] ==>
       f.partial[0] == '{' && Depth(f.partial) == f.depth &&
       forall k | 1 <= k <= |f.partial| :: Depth(f.partial[..k]) > 0) &&
    forall i | 0 <= i < |f.frames| :: IsObject(f.frames[i])
  }

  lemma ScanSnoc(s: string, c: char)
    ensures Scan(s + [c]) == FrameStep(Scan(s), c)
  {
    assert (s + [c])[..|s|] == s;
  }

  lemma ScanFromSnoc(f: Framing, s: string, c: char)
    ensures ScanFrom(f, s + [c]) == FrameStep(ScanFrom(f, s), c)
  {
    assert (s + [c])[..|s|] == s;
  }

  lemma DepthSnoc(s: string, c: char)
    ensures Depth(s + [c]) == Depth(s) + Delta(c)
  {
    assert (s + [c])[..|s|] == s;
  }

  lemma ObjectEndsWithClose(o: string)
    requires IsObject(o)
    ensures o[|o| - 1] == '}' && Depth(o[..|o| - 1]) == 1
  {
    var n := |o|;
    assert o[..n - 1] + [o[n - 1]] == o;
    DepthSnoc(o[..n - 1], o[n - 1]);
    assert Depth(o[..n - 1]) > 0;
  }

  lemma FrameStepConsistent(f: Framing, c: char)
    requires Consistent(f)
    ensures Consistent(FrameStep(f, c))
  {
    var g := FrameStep(f, c);
    if g.partial != [] && g.partial != f.partial {
      // the character was collected: g.partial == f.partial + [c]
      assert g.partial == f.partial + [c];
      DepthSnoc(f.partial, c);
      forall k | 1 <= k <= |g.partial|
        ensures Depth(g.partial[..k]) > 0
      {
        if k <= |f.partial| {
          assert g.partial[..k] == f.partial[..k];
        } else {
          assert g.partial[..k] == g.partial;
        }
      }
    }
    if |g.frames| > |f.frames| {
      // a frame was cut: it is f.partial + ['}'] and the depth went from 1 to 0
      var o := f.partial + [c];
      assert g.frames == f.frames + [o];
      DepthSnoc(f.partial, c);
      forall k | 1 <= k < |o|
        ensures Depth(o[..k]) > 0
      {
        assert o[..k] == f.partial[..k];
      }
      assert IsObject(o);
    }
  }

  /** Depth is never negative, a cut frame is always an object, and the open object is collected from its `{`. */
  lemma {:induction false} ScanConsistent(s: string)
    ensures Consistent(Scan(s))
    decreases |s|
  {
    if s != [] {
      ScanConsistent(s[..|s| - 1]);
      FrameStepConsistent(Scan(s[..|s| - 1]), s[|s| - 1]);
    }
  }

  /** Every frame cut from a chunk opens with `{`, closes with `}` and is brace-balanced. */
  lemma FramesAreObjects(s: string)
    ensures forall i | 0 <= i < |Frames(s)| ::
      IsObject(Frames(s)[i]) && Frames(s)[i][0] == '{' && Frames(s)[i][|Frames(s)[i]| - 1] == '}'
  {
    ScanConsistent(s);
    forall i | 0 <= i < |Frames(s)|
      ensures Frames(s)[i][|Frames(s)[i]| - 1] == '}'
    {
      ObjectEndsWithClose(Frames(s)[i]);
    }
  }

  /** At depth 0 any character but `{` leaves the scanner untouched; a stray `}` in particular is skipped. */
  lemma DepthZeroSkips(s: string, c: char)
    requires Scan(s).depth == 0 && c != '{'
    ensures Scan(s + [c]) == Scan(s)
  {
    assert (s + [c])[..|s|] == s;
  }

  lemma {:induction false} ScanFromConcat(f: Framing, s: string, t: string)
    ensures ScanFrom(f, s + t) == ScanFrom(ScanFrom(f, s), t)
    decreases |t|
  {
    if t == [] {
      assert s + t == s;
    } else {
      var t' := t[..|t| - 1];
      ScanFromConcat(f, s, t');
      assert (s + t)[..|s + t| - 1] == s + t';
      assert (s + t)[|s + t| - 1] == t[|t| - 1];
    }
  }

  /** The scanner only ever adds frames: the frames of a prefix stay at the front. */
  lemma {:induction false} ScanFromKeepsFrames(f: Framing, s: string)
    ensures f.frames <= ScanFrom(f, s).frames
    decreases |s|
  {
    if s != [] {
      ScanFromKeepsFrames(f, s[..|s| - 1]);
    }
  }

  lemma FramesOfPrefix(s: string, t: string)
    ensures Frames(s) <= Frames(s + t)
  {
    ScanFromConcat(Start, s, t);
    ScanFromKeepsFrames(Scan(s), t);
  }

  /** Text without `{` read at depth 0 changes nothing. */
  lemma {:induction false} ScanFiller(f: Framing, x: string)
    requires f.depth == 0 && NoOpenBrace(x)
    ensures ScanFrom(f, x) == f
    decreases |x|
  {
    if x != [] {
      ScanFiller(f, x[..|x| - 1]);
    }
  }

  /** Inside an object, before its last character, the scanner holds the text read so far and cuts nothing. */
  lemma {:induction false} ScanObjectPrefix(f: Framing, o: string, k: nat)
    requires f.depth == 0 && f.partial == [] && IsObject(o) && 1 <= k < |o|
    ensures ScanFrom(f, o[..k]) == Framing(Depth(o[..k]), o[..k], f.frames)
    decreases k
  {
    assert o[..k][..k - 1] == o[..k - 1];
    if k == 1 {
      assert o[..0] == [];
      assert o[..1] == [] + [o[0]];
      DepthSnoc([], o[0]);
    } else {
      ScanObjectPrefix(f, o, k - 1);
      assert o[..k] == o[..k - 1] + [o[k - 1]];
      DepthSnoc(o[..k - 1], o[k - 1]);
    }
  }

  /** Reading a whole object from depth 0 cuts exactly that object, at its last character. */
  lemma ScanObject(f: Framing, o: string)
    requires f.depth == 0 && f.partial == [] && IsObject(o)
    ensures ScanFrom(f, o) == Framing(0, "", f.frames + [o])
  {
    var n := |o|;
    var p := o[..n - 1];
    ScanObjectPrefix(f, o, n - 1);
    ObjectEndsWithClose(o);
    assert p + [o[n - 1]] == o;
    ScanFromSnoc(f, p, o[n - 1]);
  }

  /** The chunk `fillers[0] + objs[0] + fillers[1] + ... + fillers[n]`. */
  function Weave(objs: seq<string>, fillers: seq<string>): string
    requires |fillers| == |objs| + 1
    decreases |objs|
  {
    if objs == [] then fillers[0]
    else Weave(objs[..|objs| - 1], fillers[..|objs|]) + objs[|objs| - 1] + fillers[|objs|]
  }

  /** Objects separated by filler without `{` are cut exactly, in order, and nothing is left open. */
  lemma {:induction false} FramesOfWeave(objs: seq<string>, fillers: seq<string>)
    requires |fillers| == |objs| + 1
    requires forall i | 0 <= i < |objs| :: IsObject(objs[i])
    requires forall i | 0 <= i < |fillers| :: NoOpenBrace(fillers[i])
    ensures Scan(Weave(objs, fillers)) == Framing(0, "", objs)
    decreases |objs|
  {
    if objs == [] {
      ScanFiller(Start, fillers[0]);
    } else {
      var n := |objs|;
      var front := Weave(objs[..n - 1], fillers[..n]);
      FramesOfWeave(objs[..n - 1], fillers[..n]);
      ScanObjectThenFiller(front, objs[n - 1], fillers[n], objs[..n - 1]);
      assert objs[..n - 1] + [objs[n - 1]] == objs;
    }
  }

  /** After a clean cut, an object and filler text add exactly that object. */
  lemma ScanObjectThenFiller(front: string, o: string, x: string, fs: seq<string>)
    requires Scan(front) == Framing(0, "", fs) && IsObject(o) && NoOpenBrace(x)
    ensures Scan(front + o + x) == Framing(0, "", fs + [o])
  {
    ScanFromConcat(Start, front, o);
    ScanObject(Scan(front), o);
    ScanFromConcat(Start, front + o, x);
    ScanFiller(Framing(0, "", fs + [o]), x);
  }

  lemma WeaveSnocObject(objs: seq<string>, fillers: seq<string>, o: string, x: string)
    requires |fillers| == |objs| + 1
    ensures Weave(objs + [o], fillers + [x]) == Weave(objs, fillers) + o + x
  {
    assert (objs + [o])[..|objs|] == objs;
    assert (fillers + [x])[..|objs| + 1] == fillers;
  }

  lemma WeaveExtendLast(objs: seq<string>, fillers: seq<string>, x: string)
    requires |fillers| == |objs| + 1
    ensures Weave(objs, fillers[..|objs|] + [fillers[|objs|] + x]) == Weave(objs, fillers) + x
  {
    var n := |objs|;
    var longer := fillers[..n] + [fillers[n] + x];
    if n > 0 {
      assert longer[..n] == fillers[..n];
      var front := Weave(objs[..n - 1], fillers[..n]);
      assert (front + objs[n - 1]) + (fillers[n] + x) == (front + objs[n - 1] + fillers[n]) + x;
    }
  }

  /**
   * `s` is read as the frames of `f` separated by `{`-free filler, followed by
   * the text `f` still holds open.
   */
  predicate Woven(s: string, f: Framing, fillers: seq<string>) {
    |fillers| == |f.frames| + 1 &&
    (forall i | 0 <= i < |fillers| :: NoOpenBrace(fillers[i])) &&
    s == Weave(f.frames, fillers) + f.partial
  }

  lemma FrameStepWoven(s: string, f: Framing, fillers: seq<string>, c: char)
    requires Woven(s, f, fillers) && (f.depth == 0 ==> f.partial == [])
    ensures exists more :: Woven(s + [c], FrameStep(f, c), more)
  {
    var w := Weave(f.frames, fillers);
    var g := FrameStep(f, c);
    if c == '{' || (f.depth > 0 && (c != '}' || f.depth > 1)) {
      assert g.frames == f.frames && g.partial == f.partial + [c];
      assert s + [c] == w + (f.partial + [c]);
      assert Woven(s + [c], g, fillers);
    } else if f.depth == 0 {
      var n := |f.frames|;
      var more := fillers[..n] + [fillers[n] + [c]];
      WeaveExtendLast(f.frames, fillers, [c]);
      assert s + [c] == w + [c] + [];
      forall i | 0 <= i < |more|
        ensures NoOpenBrace(more[i])
      {
        if i < n {
          assert more[i] == fillers[i];
        }
      }
      assert Woven(s + [c], g, more);
    } else {
      var o := f.partial + [c];
      assert g == Framing(0, "", f.frames + [o]);
      WeaveSnocObject(f.frames, fillers, o, "");
      assert s + [c] == w + o + "" + "";
      var more := fillers + [""];
      assert forall i | 0 <= i < |more| :: more[i] == "" || more[i] == fillers[i];
      assert Woven(s + [c], g, more);
    }
  }

  /**
   * The converse of `FramesOfWeave`, for every chunk: it is its frames, in scan
   * order and without overlap, separated by text without `{`, followed by the
   * object still open at its end. So the scanner drops only `{`-free text read
   * at depth 0.
   */
  lemma {:induction false} ChunkIsWovenFrames(s: string)
    ensures exists fillers :: Woven(s, Scan(s), fillers)
    decreases |s|
  {
    if s == [] {
      assert Woven(s, Scan(s), [""]);
    } else {
      var s' := s[..|s| - 1];
      var c := s[|s| - 1];
      assert s == s' + [c];
      ChunkIsWovenFrames(s');
      var fillers :| Woven(s', Scan(s'), fillers);
      ScanConsistent(s');
      ScanSnoc(s', c);
      FrameStepWoven(s', Scan(s'), fillers, c);
    }
  }

  lemma InfixLength(f: string, s: string)
    requires IsInfix(f, s)
    ensures |f| <= |s|
  {
    var i, j :| 0 <= i <= j <= |s| && s[i..j] == f;
  }

  /** The scanner's collected text is the tail of what it has read, and every frame is a piece of it. */
  predicate CutFrom(f: Framing, s: string) {
    |f.partial| <= |s| && f.partial == s[|s| - |f.partial|..] &&
    forall i | 0 <= i < |f.frames| :: IsInfix(f.frames[i], s)
  }

  lemma InfixExtends(x: string, s: string, c: char)
    requires IsInfix(x, s)
    ensures IsInfix(x, s + [c])
  {
    var i, j :| 0 <= i <= j <= |s| && s[i..j] == x;
    assert (s + [c])[i..j] == x;
  }

  /** One step keeps the collected text a tail of what was read, and every frame a piece of it. */
  lemma FrameStepCutFrom(f: Framing, s: string, c: char)
    requires CutFrom(f, s) && (f.depth == 0 ==> f.partial == [])
    ensures CutFrom(FrameStep(f, c), s + [c])
  {
    var t := s + [c];
    forall i | 0 <= i < |f.frames|
      ensures IsInfix(f.frames[i], t)
    {
      InfixExtends(f.frames[i], s, c);
    }
    var g := FrameStep(f, c);
    if g.partial != [] {
      assert g.partial == f.partial + [c];
      assert t[|t| - |g.partial|..] == s[|s| - |f.partial|..] + [c];
    }
    if |g.frames| > |f.frames| {
      var o := f.partial + [c];
      assert t[|t| - |o|..|t|] == o;
    }
  }

  lemma {:induction false} ScanCutFrom(s: string)
    ensures CutFrom(Scan(s), s)
    decreases |s|
  {
    if s != [] {
      var s' := s[..|s| - 1];
      var c := s[|s| - 1];
      assert s == s' + [c];
      ScanCutFrom(s');
      ScanConsistent(s');
      ScanSnoc(s', c);
      FrameStepCutFrom(Scan(s'), s', c);
    }
  }

  /** Every frame is a contiguous piece of its chunk. */
  lemma FramesOccurInChunk(s: string)
    ensures forall i | 0 <= i < |Frames(s)| :: IsInfix(Frames(s)[i], s)
  {
    ScanCutFrom(s);
  }

  /**
   * An object split across two chunks is lost: the chunk holding its head
   * ends with the object still open and no frame for it, and the chunk holding
   * its tail cannot produce it.
   */
  lemma SplitObjectIsLost(x: string, o: string, k: nat)
    requires NoOpenBrace(x) && IsObject(o) && 1 <= k < |o|
    ensures Frames(x + o[..k]) == [] && Scan(x + o[..k]).depth > 0
    ensures forall i | 0 <= i < |Frames(o[k..])| :: Frames(o[k..])[i] != o
  {
    ScanFiller(Start, x);
    ScanFromConcat(Start, x, o[..k]);
    ScanObjectPrefix(Start, o, k);
    forall i | 0 <= i < |Frames(o[k..])|
      ensures Frames(o[k..])[i] != o
    {
      FramesOccurInChunk(o[k..]);
      InfixLength(Frames(o[k..])[i], o[k..]);
    }
  }
}
