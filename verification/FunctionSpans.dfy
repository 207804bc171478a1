/**
 * Function-body spans of a source text whose strings and comments are already
 * blanked, and the lookup of the innermost function around a write site.
 */
module FunctionSpans {
  import opened TextSearch

  datatype Span = Span(start: nat, end: nat)
  datatype Frame = Frame(pos: nat, isFunction: bool)

  // ---- Brace matching ----------------------------------------------------------------------

  function Delta(c: char): int { if c == '{' then 1 else if c == '}' then -1 else 0 }

  /** Opening minus closing braces in the half-open range from `a` to `b`. */
  function Net(src: string, a: nat, b: nat): int
    requires a <= b <= |src|
    decreases b
  {
    if a == b then 0 else Net(src, a, b - 1) + Delta(src[b - 1])
  }

  /** The brace at `a` has not been closed before position `i`. */
  ghost predicate Open(src: string, a: nat, i: nat)
    requires i <= |src|
  {
    a < i && src[a] == '{' && forall k :: a < k <= i ==> Net(src, a, k) > 0
  }

  /** `b` closes the brace opened at `a`: the first position where the depth is back to zero. */
  ghost predicate Matched(src: string, a: nat, b: nat) {
    b < |src| && Open(src, a, b) && src[b] == '}' && Net(src, a, b + 1) == 0
  }

  lemma {:induction false} NetSplit(src: string, a: nat, b: nat, c: nat)
    requires a <= b <= c <= |src|
    ensures Net(src, a, c) == Net(src, a, b) + Net(src, b, c)
    decreases c
  {
    if b < c {
      NetSplit(src, a, b, c - 1);
    }
  }

  // ---- The span builder ----------------------------------------------------------------------

  /** The stack holds exactly the open braces, outermost first, and tells each one's depth. */
  ghost predicate StackAt(src: string, heads: nat -> bool, stack: seq<Frame>, i: nat)
    requires i <= |src|
  {
    && (forall a: nat :: Open(src, a, i) ==> exists j :: 0 <= j < |stack| && stack[j].pos == a)
    && (forall j :: 0 <= j < |stack| ==>
          && Open(src, stack[j].pos, i)
          && stack[j].isFunction == heads(stack[j].pos)
          && Net(src, stack[j].pos, i) == |stack| - j)
  }

  /** Every matched function brace pair that closes before `i`, in order of its closing brace. */
  ghost predicate SpansAt(src: string, heads: nat -> bool, spans: seq<Span>, i: nat) {
    && (forall s :: s in spans <==> s.end < i && Matched(src, s.start, s.end) && heads(s.start))
    && (forall j, k :: 0 <= j < k < |spans| ==> spans[j].end < spans[k].end)
  }

  lemma PushOpen(src: string, heads: nat -> bool, stack: seq<Frame>, i: nat)
    requires i < |src| && StackAt(src, heads, stack, i) && src[i] == '{'
    ensures StackAt(src, heads, stack + [Frame(i, heads(i))], i + 1)
  {
    var next, after := stack + [Frame(i, heads(i))], i + 1;
    assert Net(src, i, i + 1) == 1;
    forall a: nat | Open(src, a, after) ensures exists j :: 0 <= j < |next| && next[j].pos == a {
      if a == i {
        assert next[|stack|].pos == a;
      } else {
        assert Open(src, a, i);
        var j :| 0 <= j < |stack| && stack[j].pos == a;
        assert next[j].pos == a;
      }
    }
  }

  lemma PlainChar(src: string, heads: nat -> bool, stack: seq<Frame>, i: nat)
    requires i < |src| && StackAt(src, heads, stack, i) && src[i] != '{' && src[i] != '}'
    ensures StackAt(src, heads, stack, i + 1)
  {
    var after := i + 1;
    forall a: nat | Open(src, a, after) ensures exists j :: 0 <= j < |stack| && stack[j].pos == a {
      assert Open(src, a, i);
    }
  }

  /** A closing brace matches the top of the stack and nothing else; on an empty stack it matches nothing. */
  lemma PopMatches(src: string, heads: nat -> bool, stack: seq<Frame>, i: nat)
    requires i < |src| && StackAt(src, heads, stack, i) && src[i] == '}'
    ensures forall a: nat :: Matched(src, a, i) <==> stack != [] && a == stack[|stack| - 1].pos
  {
    forall a: nat ensures Matched(src, a, i) <==> stack != [] && a == stack[|stack| - 1].pos {
      if Matched(src, a, i) {
        var j :| 0 <= j < |stack| && stack[j].pos == a;
        assert Net(src, a, i) == 1;
      }
    }
  }

  lemma PopOpen(src: string, heads: nat -> bool, stack: seq<Frame>, i: nat)
    requires i < |src| && StackAt(src, heads, stack, i) && src[i] == '}'
    ensures StackAt(src, heads, if stack == [] then [] else stack[..|stack| - 1], i + 1)
  {
    var next, after := if stack == [] then [] else stack[..|stack| - 1], i + 1;
    forall j | 0 <= j < |next|
      ensures Open(src, next[j].pos, after) && next[j].isFunction == heads(next[j].pos) && Net(src, next[j].pos, after) == |next| - j
    {
      assert next[j] == stack[j];
      OpenPast(src, stack[j].pos, i);
    }
    forall a: nat | Open(src, a, after) ensures exists j :: 0 <= j < |next| && next[j].pos == a {
      OpenPast(src, a, i);
      var j :| 0 <= j < |stack| && stack[j].pos == a;
      assert next[j].pos == a;
    }
    hide Open, Net;
  }

  /** A brace is still open behind a closing one exactly when the depth was at least two before it. */
  lemma OpenPast(src: string, a: nat, i: nat)
    requires a <= i < |src| && src[i] == '}'
    ensures Net(src, a, i + 1) == Net(src, a, i) - 1
    ensures Open(src, a, i + 1) <==> Open(src, a, i) && Net(src, a, i) > 1
  {
    assert Net(src, a, i + 1) == Net(src, a, i) - 1;
  }

  /** `heads(i)` says whether the text before the brace at `i` is recognised as a function head. */
  method ComputeFunctionSpans(src: string, heads: nat -> bool) returns (spans: seq<Span>)
    ensures SpansAt(src, heads, spans, |src|)
  {
    hide StackAt, Matched;
    spans := [];
    var stack: seq<Frame> := [];
    EmptyStack(src, heads);
    for i := 0 to |src|
      invariant StackAt(src, heads, stack, i) && SpansAt(src, heads, spans, i)
    {
      var ch := src[i];
      NoSpanEndsElsewhere(src);
      if ch == '{' {
        PushOpen(src, heads, stack, i);
        stack := stack + [Frame(i, heads(i))];
        continue;
      }
      if ch == '}' {
        PopMatches(src, heads, stack, i);
        PopOpen(src, heads, stack, i);
        FramesTellHeads(src, heads, stack, i);
        if stack != [] {
          var frame := stack[|stack| - 1];
          stack := stack[..|stack| - 1];
          if frame.isFunction { spans := spans + [Span(frame.pos, i)]; }
        }
        continue;
      }
      PlainChar(src, heads, stack, i);
    }
  }

  lemma EmptyStack(src: string, heads: nat -> bool)
    ensures StackAt(src, heads, [], 0)
  {
  }

  lemma NoSpanEndsElsewhere(src: string)
    ensures forall a: nat, b: nat :: Matched(src, a, b) ==> b < |src| && src[b] == '}'
  {
  }

  lemma FramesTellHeads(src: string, heads: nat -> bool, stack: seq<Frame>, i: nat)
    requires i <= |src| && StackAt(src, heads, stack, i)
    ensures forall j :: 0 <= j < |stack| ==> stack[j].isFunction == heads(stack[j].pos)
  {
  }

  // ---- Spans are nested or apart ---------------------------------------------------------------

  ghost predicate Inside(inner: Span, outer: Span) { outer.start < inner.start && inner.end < outer.end }

  ghost predicate Apart(s: Span, t: Span) { s.end < t.start || t.end < s.start }

  /** An opening brace inside a matched pair is closed inside it. */
  lemma MatchedInside(src: string, a: nat, b: nat, c: nat, d: nat)
    requires Matched(src, a, b) && Matched(src, c, d) && a < c < b
    ensures d < b
  {
    NetSplit(src, a, c, b + 1);
    assert Net(src, a, c) > 0;
  }

  lemma MatchedUnique(src: string, a: nat, b: nat, d: nat)
    requires Matched(src, a, b) && Matched(src, a, d)
    ensures b == d
  {
    assert Net(src, a, (if b < d then b else d) + 1) == 0;
  }

  /** On any text, balanced or not, two recorded spans are the same, nested, or disjoint. */
  lemma SpansAreLaminar(src: string, heads: nat -> bool, spans: seq<Span>, s: Span, t: Span)
    requires SpansAt(src, heads, spans, |src|) && s in spans && t in spans
    ensures s == t || Inside(s, t) || Inside(t, s) || Apart(s, t)
  {
    if s.start == t.start {
      MatchedUnique(src, s.start, s.end, t.end);
    } else if s.start < t.start < s.end {
      MatchedInside(src, s.start, s.end, t.start, t.end);
    } else if t.start < s.start < t.end {
      MatchedInside(src, t.start, t.end, s.start, s.end);
    }
  }

  // ---- The innermost enclosing function ----------------------------------------------------------

  datatype Enclosing = TopLevel | Within(span: Span)

  predicate Encloses(s: Span, offset: nat) { s.start < offset < s.end }

  /** Keeps the shortest enclosing span, the first one found when lengths tie. */
  method EnclosingFunction(spans: seq<Span>, offset: nat) returns (found: Enclosing)
    ensures found.TopLevel? <==> forall s :: s in spans ==> !(s.start < offset < s.end)
    ensures found.Within? ==> found.span in spans && found.span.start < offset < found.span.end
    ensures found.Within? ==> forall s :: s in spans && s.start < offset < s.end ==>
      found.span.end - found.span.start <= s.end - s.start
  {
    found := TopLevel;
    for k := 0 to |spans|
      invariant found.TopLevel? <==> forall j :: 0 <= j < k ==> !Encloses(spans[j], offset)
      invariant found.Within? ==> found.span in spans && Encloses(found.span, offset)
      invariant found.Within? ==> forall j :: 0 <= j < k && Encloses(spans[j], offset) ==>
        found.span.end - found.span.start <= spans[j].end - spans[j].start
    {
      var span := spans[k];
      if span.start < offset && offset < span.end {
        if found.TopLevel? || span.end - span.start < found.span.end - found.span.start {
          found := Within(span);
        }
      }
    }
  }

  /** The shortest enclosing span lies strictly inside every other enclosing span, so it is unique. */
  lemma ShortestIsInnermost(src: string, heads: nat -> bool, spans: seq<Span>, offset: nat, found: Span)
    requires SpansAt(src, heads, spans, |src|) && found in spans && Encloses(found, offset)
    requires forall s :: s in spans && Encloses(s, offset) ==> found.end - found.start <= s.end - s.start
    ensures forall s :: s in spans && Encloses(s, offset) ==> s == found || Inside(found, s)
  {
    forall s | s in spans && Encloses(s, offset) ensures s == found || Inside(found, s) {
      SpansAreLaminar(src, heads, spans, s, found);
    }
  }

  const SEAM := "publishQuestionGroup"

  /** `span` is the innermost function around `offset`. */
  ghost predicate Innermost(src: string, heads: nat -> bool, offset: nat, span: Span) {
    && Matched(src, span.start, span.end) && heads(span.start) && span.start < offset < span.end
    && forall a: nat, b: nat :: Matched(src, a, b) && heads(a) && a < offset < b ==>
         a <= span.start && span.end <= b
  }

  /** A site is covered exactly when it has an innermost function and that function's body names the seam. */
  method SiteEnclosingFunctionHasSeam(src: string, heads: nat -> bool, offset: nat) returns (covered: bool)
    ensures covered <==>
      exists span :: Innermost(src, heads, offset, span) && Names(src[span.start..span.end + 1], "publishQuestionGroup")
  {
    hide Matched, Net, Contains, Names;
    var spans := ComputeFunctionSpans(src, heads);
    var enclosing := EnclosingFunction(spans, offset);
    if enclosing.TopLevel? {
      NoSpanEndsElsewhere(src);
      return false;
    }
    ShortestIsInnermost(src, heads, spans, offset, enclosing.span);
    InnermostOf(src, heads, spans, offset, enclosing.span);
    var body := src[enclosing.span.start..enclosing.span.end + 1];
    covered := Contains(body, SEAM);
    NamesIffContains(body, SEAM);
  }

  /** The word stands somewhere in the text. */
  ghost predicate Names(text: string, word: string) {
    exists before, after :: text == before + word + after
  }

  lemma NamesIffContains(text: string, word: string)
    ensures Names(text, word) <==> Contains(text, word)
  {
    if before, after :| text == before + word + after {
      assert text[|before|..|before| + |word|] == word;
      assert OccursAt(text, word, |before|);
    }
    if p :| 0 <= p && OccursAt(text, word, p) {
      assert text == text[..p] + word + text[p + |word|..];
    }
  }

  lemma InnermostOf(src: string, heads: nat -> bool, spans: seq<Span>, offset: nat, span: Span)
    requires SpansAt(src, heads, spans, |src|) && span in spans && Encloses(span, offset)
    requires forall s :: s in spans && Encloses(s, offset) ==> s == span || Inside(span, s)
    ensures Innermost(src, heads, offset, span)
    ensures forall other :: Innermost(src, heads, offset, other) ==> other == span
  {
    forall a: nat, b: nat | Matched(src, a, b) && heads(a) && a < offset < b ensures a <= span.start && span.end <= b {
      assert Span(a, b) in spans;
    }
  }
}
