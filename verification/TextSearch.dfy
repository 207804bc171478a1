/** Occurrences of one string in another. */
module TextSearch {

  predicate OccursAt(text: string, x: string, p: nat) { p + |x| <= |text| && text[p..p + |x|] == x }

  predicate Contains(text: string, x: string) { exists p: nat :: p <= |text| && OccursAt(text, x, p) }

  /** No occurrence of `x` starts in `lo..hi`. */
  ghost predicate Absent(text: string, x: string, lo: nat, hi: nat) {
    forall p :: lo <= p < hi ==> !OccursAt(text, x, p)
  }

  /** The first occurrence at or after `from`, or -1. */
  function IndexOf(text: string, x: string, from: nat): (p: int)
    ensures p == -1 <==> forall k: nat :: from <= k ==> !OccursAt(text, x, k)
    ensures p != -1 ==> from <= p && OccursAt(text, x, p) && Absent(text, x, from, p)
    decreases |text| - from
  {
    if from > |text| then -1 else if OccursAt(text, x, from) then from else IndexOf(text, x, from + 1)
  }

  lemma FoundFirst(text: string, x: string, from: nat, p: nat)
    requires from <= p && OccursAt(text, x, p) && Absent(text, x, from, p)
    ensures IndexOf(text, x, from) == p
  {
  }

  lemma OccursChar(text: string, x: string, p: nat, k: nat)
    requires OccursAt(text, x, p) && k < |x|
    ensures text[p + k] == x[k]
  {
    assert text[p..p + |x|][k] == text[p + k];
  }

  lemma OccursPrefix(text: string, x: string, y: string, p: nat)
    requires OccursAt(text, x + y, p)
    ensures OccursAt(text, x, p) && OccursAt(text, y, p + |x|)
  {
    assert text[p..p + |x + y|][..|x|] == text[p..p + |x|];
    assert text[p..p + |x + y|][|x|..] == text[p + |x|..p + |x| + |y|];
  }

  lemma OccursHere(pre: string, x: string, post: string)
    ensures OccursAt(pre + x + post, x, |pre|)
  {
  }

  lemma OccursInside(pre: string, mid: string, post: string, x: string, p: nat)
    requires |pre| <= p && p + |x| <= |pre| + |mid|
    ensures OccursAt(pre + mid + post, x, p) <==> OccursAt(mid, x, p - |pre|)
  {
    assert (pre + mid + post)[p..p + |x|] == mid[p - |pre|..p - |pre| + |x|];
  }

  /** An occurrence of `x` cannot run over the end of `mid` into `next`. */
  predicate Seam(x: string, mid: string, next: char) {
    forall k :: 1 <= k < |x| && k <= |mid| ==> x[k] != next || x[k - 1] != mid[|mid| - 1]
  }

  /** Text that does not contain `x` and that `x` cannot run out of has no occurrence in any context. */
  lemma ChunkAbsent(pre: string, mid: string, post: string, x: string)
    requires !Contains(mid, x) && x != "" && post != "" && Seam(x, mid, post[0])
    ensures Absent(pre + mid + post, x, |pre|, |pre| + |mid|)
  {
    var text, end := pre + mid + post, |pre| + |mid|;
    forall p | |pre| <= p < end ensures !OccursAt(text, x, p)
    {
      if p + |x| <= end {
        OccursInside(pre, mid, post, x, p);
        assert p - |pre| <= |mid| && !OccursAt(mid, x, p - |pre|);
      } else if OccursAt(text, x, p) {
        OccursChar(text, x, p, end - p);
        OccursChar(text, x, p, end - p - 1);
        assert false;
      }
    }
  }

  lemma AbsentJoined(text: string, x: string, lo: nat, mid: nat, hi: nat)
    requires Absent(text, x, lo, mid) && Absent(text, x, mid, hi)
    ensures Absent(text, x, lo, hi)
  {
  }

  /** A stretch without the first character of `x` has no occurrence of it. */
  lemma NoStart(text: string, x: string, lo: nat, hi: nat)
    requires x != "" && hi <= |text| && forall p :: lo <= p < hi ==> text[p] != x[0]
    ensures Absent(text, x, lo, hi)
  {
    forall p | lo <= p < hi ensures !OccursAt(text, x, p)
    {
      if OccursAt(text, x, p) {
        OccursChar(text, x, p, 0);
      }
    }
  }
}
