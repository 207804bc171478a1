/**
 * Snapshots in the layout the generator writes: on those, splicing one provider replaces or appends
 * exactly that provider's object and leaves the text of every other provider as it was.
 */
module CatalogLayout {
  import opened Wrappers
  import opened JsonBraces
  import opened CatalogSplice
  import opened TextSearch
  import L = JsonLayout
  import R = RelationKey

  /** How every provider key starts, and how the first key of a provider object stands behind its brace. */
  const MARK := "\n    \""
  const OPENER := "{\n      \""

  datatype Entry = Entry(id: string, bucket: string)

  /**
   * A snapshot: the text before the list of kept providers, that list, the text between it and the
   * providers, the providers, and the text behind them.
   */
  datatype Snapshot = Snapshot(top: string, kept: string, middle: string, entries: seq<Entry>, tail: string)

  /** An id that JSON quotes as it is and that holds no bracket or brace, as catalog ids are. */
  predicate Slug(id: string) {
    forall i :: 0 <= i < |id| ==> R.Escape(id[i]) == [id[i]] && id[i] !in {'[', ']', '{', '}'}
  }

  /** The text of a provider object: its keys are indented by six, everything in them deeper. */
  ghost predicate BucketShaped(b: string) {
    && b != "" && b[|b| - 1] == '}'
    && OccursAt(b, OPENER, 0)
    && Absent(b, OPENER, 1, |b|)
    && !Contains(b, MARK)
    && (forall pre, post :: Delimits(pre, b, post))
    && Neutral(b)
  }

  function KeyText(id: string): string { Needle(id) + " " }

  function EntryText(e: Entry): string { KeyText(e.id) + e.bucket }

  /** The entries before the i-th, each with the comma behind it. */
  function Front(es: seq<Entry>, i: nat): string
    requires i <= |es|
  {
    if i == 0 then "" else Front(es, i - 1) + (EntryText(es[i - 1]) + ",")
  }

  /** The entries from the i-th on, each with the comma before it. */
  function Rest(es: seq<Entry>, i: nat): string
    requires i <= |es|
    decreases |es| - i
  {
    if i == |es| then "" else "," + EntryText(es[i]) + Rest(es, i + 1)
  }

  function Top(s: Snapshot): string { s.top + "\"kept_providers\": " }

  function Lead(s: Snapshot): string { "]" + s.middle + PROVIDERS + " " }

  function Head(s: Snapshot): string { Top(s) + ("[" + s.kept) + Lead(s) + "{" }

  function Foot(s: Snapshot): string { "\n  }" + s.tail }

  function Text(s: Snapshot): string
    requires s.entries != []
  {
    Head(s) + EntryText(s.entries[0]) + (Rest(s.entries, 1) + Foot(s))
  }

  /** No chunk of the text before the providers contains `x`. */
  ghost predicate Free(s: Snapshot, x: string) {
    !Contains(Top(s), x) && !Contains("[" + s.kept, x) && !Contains(Lead(s), x)
  }

  ghost predicate Distinct(es: seq<Entry>) { forall i, j :: 0 <= i < j < |es| ==> es[i].id != es[j].id }

  ghost predicate EntryShaped(s: Snapshot, e: Entry) {
    Slug(e.id) && BucketShaped(e.bucket) && Free(s, Needle(e.id))
  }

  /** The generated layout. */
  ghost predicate WellFormed(s: Snapshot) {
    && s.entries != [] && Distinct(s.entries)
    && (forall e :: e in s.entries ==> EntryShaped(s, e))
    && Free(s, OPENER)
  }

  // ---- Taking the text apart ------------------------------------------------------------------

  function Before(s: Snapshot, i: nat): string
    requires i <= |s.entries|
  {
    Head(s) + Front(s.entries, i)
  }

  function After(s: Snapshot, i: nat): string
    requires i <= |s.entries|
  {
    Rest(s.entries, i) + Foot(s)
  }

  lemma {:induction false} TextAt(s: Snapshot, i: nat)
    requires i < |s.entries|
    ensures Text(s) == Before(s, i) + EntryText(s.entries[i]) + After(s, i + 1)
  {
    hide EntryText, Head, Foot;
    if i == 0 {
      assert Before(s, 0) == Head(s);
    } else {
      TextAt(s, i - 1);
      var e, f := EntryText(s.entries[i - 1]), EntryText(s.entries[i]);
      assert After(s, i) == "," + f + After(s, i + 1);
      assert Before(s, i) == Before(s, i - 1) + (e + ",");
      Regroup(Before(s, i - 1), e, f, After(s, i + 1));
    }
  }

  lemma Regroup(a: string, b: string, c: string, d: string)
    ensures a + b + ("," + c + d) == (a + (b + ",")) + c + d
  {
  }

  lemma AfterStarts(s: Snapshot, i: nat)
    requires i <= |s.entries|
    ensures After(s, i) != "" && After(s, i)[0] in {',', '\n'}
  {
    hide EntryText;
  }

  lemma {:induction false} SlugBody(id: string)
    requires Slug(id)
    ensures R.Body(id) == id
  {
    if id != "" {
      assert R.Escape(id[0]) == [id[0]];
      assert Slug(id[1..]) by {
        forall i | 0 <= i < |id[1..]| ensures R.Escape(id[1..][i]) == [id[1..][i]] && id[1..][i] !in {'[', ']', '{', '}'}
        {
          assert id[1..][i] == id[i + 1];
        }
      }
      SlugBody(id[1..]);
    }
  }

  lemma SlugChars(id: string, i: nat)
    requires Slug(id) && i < |id|
    ensures id[i] !in {'[', ']', '{', '}', '"', '\n'}
  {
  }

  lemma NeedleIs(id: string)
    requires Slug(id)
    ensures Needle(id) == MARK + (id + "\":")
    ensures KeyText(id) == MARK + (id + "\": ")
  {
    SlugBody(id);
    QuotedParts("\n    ", "\"", id, ":", " ");
    assert "\n    " + "\"" == MARK && "\"" + ":" == "\":" && "\":" + " " == "\": ";
    hide R.Body;
  }

  lemma QuotedParts(lead: string, quote: string, body: string, colon: string, blank: string)
    ensures lead + (quote + body + quote) + colon == (lead + quote) + (body + (quote + colon))
    ensures (lead + quote) + (body + (quote + colon)) + blank == (lead + quote) + (body + ((quote + colon) + blank))
  {
  }

  lemma CharsBetween(head: string, id: string, end: string, bad: set<char>)
    requires forall k :: 1 <= k < |head| ==> head[k] !in bad
    requires forall k :: 0 <= k < |id| ==> id[k] !in bad
    requires forall k :: 0 <= k < |end| ==> end[k] !in bad
    ensures forall k :: 1 <= k < |head + (id + end)| ==> (head + (id + end))[k] !in bad
  {
  }

  /** The needle of a slug, and the characters in it. */
  lemma NeedleOfSlug(id: string)
    requires Slug(id)
    ensures Needle(id) == MARK + (id + "\":")
    ensures KeyText(id) == MARK + (id + "\": ")
    ensures forall k :: 1 <= k < |KeyText(id)| ==> KeyText(id)[k] !in {'[', ']', '{', '}', '\n'}
  {
    NeedleIs(id);
    forall k | 0 <= k < |id| ensures id[k] !in {'[', ']', '{', '}', '\n'} {
      SlugChars(id, k);
    }
    hide Needle, KeyText, Slug;
    CharsBetween(MARK, id, "\": ", {'[', ']', '{', '}', '\n'});
  }

  lemma NeedlesDiffer(text: string, a: string, b: string, p: nat)
    requires OccursAt(text, Needle(a), p) && OccursAt(text, Needle(b), p)
    ensures a == b
  {
    hide R.Body;
    var restA, restB := text[p + |Needle(a)|..], text[p + |Needle(b)|..];
    assert text[p..] == Needle(a) + restA && text[p..] == Needle(b) + restB;
    var x, y := R.Body(a) + "\"" + (":" + restA), R.Body(b) + "\"" + (":" + restB);
    assert Needle(a) + restA == MARK + x;
    assert Needle(b) + restB == MARK + y;
    assert x == (MARK + x)[|MARK|..] && y == (MARK + y)[|MARK|..];
    R.BodyInjective(a, b, ":" + restA, ":" + restB);
  }

  lemma EntryIs(s: Snapshot, i: nat)
    requires WellFormed(s) && i < |s.entries|
    ensures Slug(s.entries[i].id) && BucketShaped(s.entries[i].bucket) && Free(s, Needle(s.entries[i].id))
  {
    hide Slug, BucketShaped, Free;
    assert EntryShaped(s, s.entries[i]);
  }

  // ---- Where keys and objects start -----------------------------------------------------------

  /** Nothing after the first character of `x` is a bracket or a brace. */
  predicate NoBrackets(x: string) {
    x != "" && forall k :: 1 <= k < |x| ==> x[k] !in {'[', ']', '{', '}'}
  }

  lemma SeamOf(x: string, chunk: string, next: char)
    requires NoBrackets(x) && next in {'[', ']', '{', '}'}
    ensures Seam(x, chunk, next)
  {
  }

  /** What no chunk of the head contains does not start in the head, its last brace aside. */
  lemma HeadFree(s: Snapshot, x: string, rest: string)
    requires Free(s, x) && NoBrackets(x)
    ensures Absent(Head(s) + rest, x, 0, |Head(s)| - 1)
  {
    var a, b, c, text := Top(s), "[" + s.kept, Lead(s), Head(s) + rest;
    assert b[0] == '[' && c[0] == ']';
    SeamOf(x, a, '[');
    SeamOf(x, b, ']');
    SeamOf(x, c, '{');
    hide Top, Lead, Seam, Absent, NoBrackets, Contains;
    ChunkAbsent("", a, b + c + "{" + rest, x);
    ChunkAbsent(a, b, c + "{" + rest, x);
    ChunkAbsent(a + b, c, "{" + rest, x);
    assert text == "" + a + (b + c + "{" + rest);
    assert text == a + b + (c + "{" + rest);
    assert text == (a + b) + c + ("{" + rest);
    AbsentJoined(text, x, 0, |a|, |a + b|);
    AbsentJoined(text, x, 0, |a + b|, |a + b| + |c|);
  }

  /** Within one entry the key mark occurs at its start alone, and the opener at its object alone. */
  lemma EntryMarks(pre: string, e: Entry, post: string)
    requires Slug(e.id) && BucketShaped(e.bucket) && post != "" && post[0] in {',', '\n'}
    ensures var text := pre + EntryText(e) + post;
      && Absent(text, MARK, |pre| + 1, |pre| + |EntryText(e)|)
      && Absent(text, OPENER, |pre|, |pre| + |KeyText(e.id)|)
      && Absent(text, OPENER, |pre| + |KeyText(e.id)| + 1, |pre| + |EntryText(e)|)
  {
    var key, b, text := KeyText(e.id), e.bucket, pre + EntryText(e) + post;
    var at := |pre| + |key|;
    NeedleOfSlug(e.id);
    hide KeyText, Delimits, Neutral;
    assert text == (pre + key) + b + post;
    forall p | |pre| <= p < at ensures text[p] == key[p - |pre|]
    {
    }
    assert key[0] == '\n';
    NoStart(text, MARK, |pre| + 1, at);
    NoStart(text, OPENER, |pre|, at);
    assert Seam(MARK, b, post[0]);
    ChunkAbsent(pre + key, b, post, MARK);
    AbsentJoined(text, MARK, |pre| + 1, at, at + |b|);
    OpenersInBucket(pre + key, b, post);
  }

  lemma OpenersInBucket(pre: string, b: string, post: string)
    requires BucketShaped(b) && post != "" && post[0] in {',', '\n'}
    ensures Absent(pre + b + post, OPENER, |pre| + 1, |pre| + |b|)
  {
    var text, end := pre + b + post, |pre| + |b|;
    hide Delimits, Neutral;
    forall p | |pre| + 1 <= p < end ensures !OccursAt(text, OPENER, p)
    {
      if p + |OPENER| <= end {
        OccursInside(pre, b, post, OPENER, p);
      } else if OccursAt(text, OPENER, p) {
        OccursChar(text, OPENER, p, end - p);
        OccursChar(text, OPENER, p, end - p - 1);
        assert false;
      }
    }
  }

  function KeyAt(s: Snapshot, i: nat): nat
    requires i <= |s.entries|
  {
    |Before(s, i)|
  }

  function ObjectAt(s: Snapshot, i: nat): nat
    requires i < |s.entries|
  {
    KeyAt(s, i) + |KeyText(s.entries[i].id)|
  }

  predicate IsKey(s: Snapshot, k: nat, p: nat)
    requires k <= |s.entries|
  {
    exists j :: 0 <= j < k && p == KeyAt(s, j)
  }

  predicate IsObject(s: Snapshot, k: nat, p: nat)
    requires k <= |s.entries|
  {
    exists j :: 0 <= j < k && p == ObjectAt(s, j)
  }

  lemma NextKey(s: Snapshot, i: nat)
    requires i < |s.entries|
    ensures KeyAt(s, i + 1) == KeyAt(s, i) + |EntryText(s.entries[i])| + 1
    ensures KeyAt(s, i) + |EntryText(s.entries[i])| < |Text(s)|
    ensures Text(s)[KeyAt(s, i) + |EntryText(s.entries[i])|] in {',', '\n'}
    ensures i + 1 < |s.entries| ==> Text(s)[KeyAt(s, i) + |EntryText(s.entries[i])|] == ','
    ensures i == 0 ==> KeyAt(s, i) == |Head(s)|
  {
    TextAt(s, i);
    AfterStarts(s, i + 1);
    hide EntryText, Head;
    assert Before(s, 0) == Head(s);
  }

  /** Up to the i-th key, the mark occurs at the earlier keys and the opener at the earlier objects alone. */
  lemma {:induction false} KeysBefore(s: Snapshot, i: nat, p: nat)
    requires WellFormed(s) && i < |s.entries| && |Head(s)| <= p < KeyAt(s, i)
    ensures OccursAt(Text(s), MARK, p) ==> IsKey(s, i, p)
    ensures OccursAt(Text(s), OPENER, p) ==> IsObject(s, i, p)
  {
    hide Text, KeyAt, EntryText, KeyText, BucketShaped, Head, OccursAt;
    NextKey(s, 0);
    var k := i - 1;
    NextKey(s, k);
    if p < KeyAt(s, k) {
      KeysBefore(s, k, p);
    } else {
      EntryHasMarks(s, k, p);
    }
  }

  lemma EntryHasMarks(s: Snapshot, k: nat, p: nat)
    requires WellFormed(s) && k + 1 < |s.entries| && KeyAt(s, k) <= p < KeyAt(s, k + 1)
    ensures OccursAt(Text(s), MARK, p) ==> p == KeyAt(s, k)
    ensures OccursAt(Text(s), OPENER, p) ==> p == ObjectAt(s, k)
  {
    var e := s.entries[k];
    EntryIs(s, k);
    TextAt(s, k);
    AfterStarts(s, k + 1);
    NextKey(s, k);
    EntryMarks(Before(s, k), e, After(s, k + 1));
    assert |EntryText(e)| == |KeyText(e.id)| + |e.bucket|;
    hide Before, After, EntryText, KeyText, BucketShaped, Text;
    if p == KeyAt(s, k) + |EntryText(e)| {
      NoStart(Text(s), MARK, p, p + 1);
      NoStart(Text(s), OPENER, p, p + 1);
    }
  }

  // ---- The slices of a laid-out snapshot ------------------------------------------------------

  lemma NeedleNoBrackets(id: string)
    requires Slug(id)
    ensures NoBrackets(Needle(id)) && Needle(id)[0] == '\n'
  {
    NeedleOfSlug(id);
    assert Needle(id) + " " == KeyText(id);
    assert forall k :: 0 <= k < |Needle(id)| ==> Needle(id)[k] == KeyText(id)[k];
    hide Needle, KeyText;
    assert |MARK| <= |Needle(id)|;
  }

  lemma KeyOccurs(s: Snapshot, i: nat)
    requires i < |s.entries|
    ensures OccursAt(Text(s), KeyText(s.entries[i].id), KeyAt(s, i))
    ensures OccursAt(Text(s), s.entries[i].bucket, ObjectAt(s, i))
    ensures OccursAt(Text(s), Needle(s.entries[i].id), KeyAt(s, i))
  {
    TextAt(s, i);
    var e := s.entries[i];
    OccursHere(Before(s, i), EntryText(e), After(s, i + 1));
    OccursPrefix(Text(s), KeyText(e.id), e.bucket, KeyAt(s, i));
    OccursPrefix(Text(s), Needle(e.id), " ", KeyAt(s, i));
  }

  /** What is free of the head and does not start with a brace does not start in the head. */
  lemma AbsentFromHead(s: Snapshot, x: string)
    requires s.entries != [] && Free(s, x) && NoBrackets(x) && x[0] != '{'
    ensures Absent(Text(s), x, 0, |Head(s)|)
  {
    var rest := EntryText(s.entries[0]) + (Rest(s.entries, 1) + Foot(s));
    assert Text(s) == Head(s) + rest;
    assert Text(s)[|Head(s)| - 1] == '{';
    hide Head, EntryText, Rest, Foot, Text;
    HeadFree(s, x, rest);
    NoStart(Text(s), x, |Head(s)| - 1, |Head(s)|);
    AbsentJoined(Text(s), x, 0, |Head(s)| - 1, |Head(s)|);
  }

  /** Up to the i-th key, the needle of an id that is not among the earlier ones does not occur. */
  lemma NeedleAbsent(s: Snapshot, i: nat, id: string)
    requires WellFormed(s) && i < |s.entries| && Slug(id) && Free(s, Needle(id))
    requires forall j :: 0 <= j < i ==> s.entries[j].id != id
    ensures Absent(Text(s), Needle(id), 0, KeyAt(s, i))
  {
    var x, text, head := Needle(id), Text(s), |Head(s)|;
    NeedleNoBrackets(id);
    AbsentFromHead(s, x);
    NeedleOfSlug(id);
    assert KeyAt(s, i) >= head;
    hide Text, Head, EntryText, KeyText, Needle, Rest, Foot, KeyAt, Free, OccursAt, Absent, WellFormed;
    forall p | head <= p < KeyAt(s, i) ensures !OccursAt(text, x, p)
    {
      if OccursAt(text, x, p) {
        OccursPrefix(text, MARK, id + "\":", p);
        KeysBefore(s, i, p);
        var j :| 0 <= j < i && p == KeyAt(s, j);
        KeyOccurs(s, j);
        NeedlesDiffer(text, id, s.entries[j].id, p);
      }
    }
    AbsentFrom(text, x, head, KeyAt(s, i));
    AbsentJoined(text, x, 0, head, KeyAt(s, i));
  }

  lemma AbsentFrom(text: string, x: string, lo: nat, hi: nat)
    requires forall p :: lo <= p < hi ==> !OccursAt(text, x, p)
    ensures Absent(text, x, lo, hi)
  {
  }

  /** The text of an entry without its leading line break. */
  function SliceText(e: Entry): string { EntryText(e)[1..] }

  lemma FirstBrace(text: string, from: nat, key: string, b: string)
    requires OccursAt(text, key, from) && OccursAt(text, b, from + |key|)
    requires b != "" && b[0] == '{' && forall k :: 0 <= k < |key| ==> key[k] != '{'
    ensures IndexOf(text, "{", from) == from + |key|
  {
    forall p | from <= p < from + |key| ensures text[p] != '{'
    {
      OccursChar(text, key, from, p - from);
    }
    NoStart(text, "{", from, from + |key|);
    OccursChar(text, b, from + |key|, 0);
    FoundFirst(text, "{", from, from + |key|);
  }

  lemma BucketStarts(b: string)
    requires BucketShaped(b)
    ensures |b| > |OPENER| && b[0] == '{' && OccursAt(b, OPENER, 0)
  {
    hide Delimits, Neutral;
    OccursChar(b, OPENER, 0, 0);
    OccursChar(b, OPENER, 0, |OPENER| - 1);
  }

  lemma DelimitedEnd(pre: string, b: string, post: string)
    requires BucketShaped(b)
    ensures BraceEnd(pre + b + post, |pre|, |pre|) == |pre| + |b| - 1
  {
    assert Delimits(pre, b, post);
    ClosesEnd(pre + b + post, |pre|, |pre| + |b| - 1);
  }

  lemma ClosesEnd(text: string, open: nat, c: nat)
    requires ClosesAt(text, open, c)
    ensures BraceEnd(text, open, open) == c
  {
    var found := BraceEnd(text, open, open);
    assert Returns(text, open, c);
  }

  lemma EntrySplits(pre: string, e: Entry, post: string)
    ensures var text, key := pre + EntryText(e) + post, KeyText(e.id);
      && text == (pre + key) + e.bucket + post
      && text == pre + key + (e.bucket + post)
      && text == pre + Needle(e.id) + (" " + e.bucket + post)
      && |EntryText(e)| == |key| + |e.bucket|
  {
    hide Needle;
    var key, b, n := KeyText(e.id), e.bucket, Needle(e.id);
    Regrouped(pre, key, b, post);
    Regrouped(pre, n, " ", b + post);
    assert " " + b + post == " " + (b + post);
  }

  lemma Regrouped(a: string, b: string, c: string, d: string)
    ensures a + (b + c) + d == (a + b) + c + d == a + b + (c + d)
  {
  }

  /** Where the first needle is an entry's own, the slice is that entry. */
  lemma SliceLands(pre: string, e: Entry, post: string)
    requires Slug(e.id) && BucketShaped(e.bucket)
    requires Absent(pre + EntryText(e) + post, Needle(e.id), 0, |pre|)
    ensures ProviderSlice(pre + EntryText(e) + post, e.id) == Some(SliceText(e))
  {
    hide EntryText, KeyText, Needle, BucketShaped, Absent, OccursAt, Slug, BraceEnd, IndexOf, ProviderSlice;
    var text, key, b := pre + EntryText(e) + post, KeyText(e.id), e.bucket;
    EntrySplits(pre, e, post);
    NeedleOfSlug(e.id);
    assert key[0] != '{';
    OccursHere(pre, Needle(e.id), " " + b + post);
    FoundFirst(text, Needle(e.id), 0, |pre|);
    OccursHere(pre, key, b + post);
    OccursHere(pre + key, b, post);
    BucketStarts(b);
    FirstBrace(text, |pre|, key, b);
    DelimitedEnd(pre + key, b, post);
    var open := |pre + key|;
    assert open == |pre| + |key|;
    assert BraceEnd(text, open, open) == open + |b| - 1;
    assert IndexOf(text, "{", |pre|) == open;
    SliceIs(text, e.id, |pre|, open, open + |b| - 1);
    SliceAt(pre, EntryText(e), post);
  }

  lemma SliceIs(text: string, id: string, at: nat, open: nat, close: nat)
    requires IndexOf(text, Needle(id), 0) == at && IndexOf(text, "{", at) == open
    requires BraceEnd(text, open, open) == close && at <= close < |text|
    ensures ProviderSlice(text, id) == Some(text[at + 1..close + 1])
  {
    hide Needle, IndexOf, BraceEnd;
  }

  /** In the layout, every provider's slice is its key line and its object, whole. */
  lemma SliceOfEntry(s: Snapshot, i: nat)
    requires WellFormed(s) && i < |s.entries|
    ensures ProviderSlice(Text(s), s.entries[i].id) == Some(SliceText(s.entries[i]))
  {
    var e := s.entries[i];
    EntryIs(s, i);
    NeedleAbsent(s, i, e.id);
    TextAt(s, i);
    hide Text, After, EntryText, Needle, Absent, Free;
    SliceLands(Before(s, i), e, After(s, i + 1));
  }

  lemma SliceAt(pre: string, mid: string, post: string)
    requires mid != ""
    ensures (pre + mid + post)[|pre| + 1..|pre| + |mid|] == mid[1..]
  {
  }

  // ---- Where a slice occurs -------------------------------------------------------------------

  /** The brace that opens the providers is not the start of an opener. */
  lemma OpenerNotInHead(s: Snapshot)
    requires WellFormed(s)
    ensures Absent(Text(s), OPENER, 0, |Head(s)|)
  {
    var head, rest := |Head(s)|, EntryText(s.entries[0]) + (Rest(s.entries, 1) + Foot(s));
    assert Text(s) == Head(s) + rest;
    assert NoBrackets(OPENER);
    var e := s.entries[0];
    EntryIs(s, 0);
    hide Head, EntryText, Rest, Foot, Text, Free, BucketShaped;
    HeadFree(s, OPENER, rest);
    MarkAfterHead(s);
    OpenerThenMark(Text(s), head - 1);
    AbsentOne(Text(s), OPENER, head - 1);
    AbsentJoined(Text(s), OPENER, 0, head - 1, head);
  }

  lemma MarkAfterHead(s: Snapshot)
    requires s.entries != [] && Slug(s.entries[0].id)
    ensures OccursAt(Text(s), MARK, |Head(s)|) && |Head(s)| > 0
  {
    KeyOccurs(s, 0);
    NextKey(s, 0);
    var id := s.entries[0].id;
    NeedleOfSlug(id);
    hide KeyText, Text, Needle, KeyAt;
    OccursPrefix(Text(s), MARK, id + "\": ", |Head(s)|);
  }

  lemma OpenerThenMark(text: string, p: nat)
    requires OccursAt(text, MARK, p + 1)
    ensures !OccursAt(text, OPENER, p)
  {
    if OccursAt(text, OPENER, p) {
      OccursChar(text, OPENER, p, |MARK|);
      OccursChar(text, MARK, p + 1, |MARK| - 1);
      assert false;
    }
  }

  lemma AbsentOne(text: string, x: string, p: nat)
    requires !OccursAt(text, x, p)
    ensures Absent(text, x, p, p + 1)
  {
  }

  /** `id` in quotes, a colon and a space end at `r`. */
  predicate QuotedBefore(text: string, id: string, r: nat) {
    && |id| + 4 <= r <= |text|
    && text[r - 4 - |id|] == '"'
    && (forall k :: 0 <= k < |id| ==> text[r - 3 - |id| + k] == id[k])
    && (forall q :: r - 3 - |id| <= q < r - 3 ==> text[q] != '"')
  }

  lemma KeyEnds(text: string, id: string, p: nat)
    requires Slug(id) && |KeyText(id)| > 0 && OccursAt(text, KeyText(id)[1..], p)
    ensures QuotedBefore(text, id, p + |KeyText(id)| - 1)
  {
    NeedleOfSlug(id);
    var key, m, r := KeyText(id), |MARK|, p + |KeyText(id)| - 1;
    assert key[1..] == MARK[1..] + (id + "\": ");
    forall k | 0 <= k < |id| ensures id[k] != '"'
    {
      SlugChars(id, k);
    }
    hide KeyText, Needle, Slug;
    OccursChar(text, key[1..], p, m - 2);
    forall k | 0 <= k < |id| ensures text[r - 3 - |id| + k] == id[k]
    {
      OccursChar(text, key[1..], p, m - 1 + k);
      assert key[1..][m - 1 + k] == id[k];
    }
    forall q | r - 3 - |id| <= q < r - 3 ensures text[q] != '"'
    {
      OccursChar(text, key[1..], p, q - p);
      assert key[1..][q - p] == id[q - (r - 3 - |id|)];
    }
  }

  lemma NotLonger(text: string, a: string, b: string, r: nat)
    requires QuotedBefore(text, a, r) && QuotedBefore(text, b, r)
    ensures |b| <= |a|
  {
  }

  /** Two keys that end at the same place are the same. */
  lemma KeysAlign(text: string, a: string, b: string, r: nat)
    requires QuotedBefore(text, a, r) && QuotedBefore(text, b, r)
    ensures a == b
  {
    NotLonger(text, a, b, r);
    NotLonger(text, b, a, r);
    forall k | 0 <= k < |a| ensures a[k] == b[k]
    {
      assert text[r - 3 - |a| + k] == a[k] && text[r - 3 - |b| + k] == b[k];
    }
  }

  lemma BeforeObject(s: Snapshot, i: nat, r: nat)
    requires WellFormed(s) && i < |s.entries| && r < ObjectAt(s, i)
    ensures OccursAt(Text(s), OPENER, r) ==> IsObject(s, i, r)
  {
    var e := s.entries[i];
    EntryIs(s, i);
    OpenerNotInHead(s);
    if |Head(s)| <= r < KeyAt(s, i) {
      KeysBefore(s, i, r);
    } else if KeyAt(s, i) <= r {
      TextAt(s, i);
      AfterStarts(s, i + 1);
      EntryMarks(Before(s, i), e, After(s, i + 1));
    }
  }

  /** The text of an entry's slice first occurs where that entry is. */
  lemma SliceOccurs(s: Snapshot, i: nat)
    requires WellFormed(s) && i < |s.entries|
    ensures IndexOf(Text(s), SliceText(s.entries[i]), 0) == KeyAt(s, i) + 1
  {
    hide Text, SliceText, OccursAt, WellFormed, KeyAt;
    var text, x := Text(s), SliceText(s.entries[i]);
    SliceHere(s, i);
    forall p | 0 <= p < KeyAt(s, i) + 1 ensures !OccursAt(text, x, p)
    {
      if OccursAt(text, x, p) {
        SliceElsewhere(s, i, p);
      }
    }
    AbsentFrom(text, x, 0, KeyAt(s, i) + 1);
    FoundFirst(text, x, 0, KeyAt(s, i) + 1);
  }

  lemma SliceHere(s: Snapshot, i: nat)
    requires i < |s.entries|
    ensures OccursAt(Text(s), SliceText(s.entries[i]), KeyAt(s, i) + 1)
  {
    TextAt(s, i);
    var e := s.entries[i];
    OccursHere(Before(s, i), EntryText(e), After(s, i + 1));
    assert EntryText(e) == [EntryText(e)[0]] + SliceText(e);
    OccursPrefix(Text(s), [EntryText(e)[0]], SliceText(e), KeyAt(s, i));
  }

  lemma SliceElsewhere(s: Snapshot, i: nat, p: nat)
    requires WellFormed(s) && i < |s.entries| && OccursAt(Text(s), SliceText(s.entries[i]), p)
    ensures p >= KeyAt(s, i) + 1
  {
    var e := s.entries[i];
    EntryIs(s, i);
    var text, key := Text(s), KeyText(e.id);
    KeyLength(e.id);
    assert SliceText(e) == key[1..] + e.bucket;
    hide Text, KeyText, EntryText, OccursAt, KeyAt, Free, BucketShaped, WellFormed;
    OccursPrefix(text, key[1..], e.bucket, p);
    var r := p + |key| - 1;
    BucketOpens(text, e.bucket, r);
    if p < KeyAt(s, i) + 1 {
      BeforeObject(s, i, r);
      var j :| 0 <= j < i && r == ObjectAt(s, j);
      EarlierDiffers(s, j, i);
      ObjectsAlign(s, e.id, j, p);
    }
  }

  lemma KeyLength(id: string)
    requires Slug(id)
    ensures |KeyText(id)| > |MARK|
  {
    NeedleOfSlug(id);
  }

  lemma EarlierDiffers(s: Snapshot, j: nat, i: nat)
    requires WellFormed(s) && j < i < |s.entries|
    ensures s.entries[j].id != s.entries[i].id
  {
  }

  /** A key that ends where the j-th object starts is the j-th key. */
  lemma ObjectsAlign(s: Snapshot, id: string, j: nat, p: nat)
    requires WellFormed(s) && j < |s.entries| && Slug(id) && |KeyText(id)| > 0
    requires p + |KeyText(id)| - 1 == ObjectAt(s, j) && OccursAt(Text(s), KeyText(id)[1..], p)
    ensures s.entries[j].id == id
  {
    hide Text, KeyText, OccursAt, KeyAt, QuotedBefore;
    KeyEnds(Text(s), id, p);
    QuotedBeforeObject(s, j);
    KeysAlign(Text(s), id, s.entries[j].id, ObjectAt(s, j));
  }

  lemma QuotedBeforeObject(s: Snapshot, j: nat)
    requires WellFormed(s) && j < |s.entries|
    ensures QuotedBefore(Text(s), s.entries[j].id, ObjectAt(s, j))
  {
    hide WellFormed, Free, BucketShaped, Slug, Text, KeyText, KeyAt, QuotedBefore, OccursAt;
    var f := s.entries[j];
    EntryIs(s, j);
    KeyLength(f.id);
    KeyTail(s, j);
    KeyEnds(Text(s), f.id, KeyAt(s, j) + 1);
  }

  lemma KeyTail(s: Snapshot, j: nat)
    requires j < |s.entries| && KeyText(s.entries[j].id) != ""
    ensures OccursAt(Text(s), KeyText(s.entries[j].id)[1..], KeyAt(s, j) + 1)
  {
    hide Text, KeyText, KeyAt;
    KeyOccurs(s, j);
    var key := KeyText(s.entries[j].id);
    assert key == key[..1] + key[1..];
    OccursPrefix(Text(s), key[..1], key[1..], KeyAt(s, j));
  }

  lemma BucketOpens(text: string, b: string, r: nat)
    requires BucketShaped(b) && OccursAt(text, b, r)
    ensures OccursAt(text, OPENER, r)
  {
    BucketStarts(b);
    assert b == OPENER + b[|OPENER|..];
    OccursPrefix(text, OPENER, b[|OPENER|..], r);
  }

  // ---- Replacing a provider -------------------------------------------------------------------

  lemma {:induction false} FrontSame(a: seq<Entry>, b: seq<Entry>, i: nat)
    requires i <= |a| && i <= |b| && a[..i] == b[..i]
    ensures Front(a, i) == Front(b, i)
  {
    if i > 0 {
      assert a[i - 1] == a[..i][i - 1] && b[i - 1] == b[..i][i - 1];
      assert a[..i - 1] == a[..i][..i - 1] && b[..i - 1] == b[..i][..i - 1];
      FrontSame(a, b, i - 1);
      hide EntryText;
    }
  }

  lemma {:induction false} RestSame(a: seq<Entry>, b: seq<Entry>, i: nat)
    requires i <= |a| == |b| && a[i..] == b[i..]
    ensures Rest(a, i) == Rest(b, i)
    decreases |a| - i
  {
    if i < |a| {
      assert a[i] == a[i..][0] && b[i] == b[i..][0];
      assert a[i + 1..] == a[i..][1..] && b[i + 1..] == b[i..][1..];
      RestSame(a, b, i + 1);
      hide EntryText;
    }
  }

  function WithBucket(s: Snapshot, i: nat, b: string): Snapshot
    requires i < |s.entries|
  {
    s.(entries := s.entries[i := Entry(s.entries[i].id, b)])
  }

  lemma WithBucketText(s: Snapshot, i: nat, b: string)
    requires i < |s.entries|
    ensures Text(WithBucket(s, i, b)) == Before(s, i) + (KeyText(s.entries[i].id) + b) + After(s, i + 1)
  {
    var t := WithBucket(s, i, b);
    TextAt(t, i);
    FrontSame(s.entries, t.entries, i);
    assert s.entries[i + 1..] == t.entries[i + 1..];
    RestSame(s.entries, t.entries, i + 1);
    hide Text, KeyText, Front, Rest;
  }

  lemma IndexFits(text: string, x: string, at: nat)
    requires IndexOf(text, x, 0) == at
    ensures at + |x| <= |text|
  {
  }

  lemma ReplaceIs(text: string, slice: string, b: string, at: nat, brace: nat)
    requires slice != "" && exists p: nat :: OccursAt(text, slice, p)
    requires IndexOf(text, slice, 0) == at && IndexOf(slice, "{", 0) == brace
    requires at + |slice| <= |text| && brace <= |slice|
    ensures ReplaceSlice(text, slice, b) == text[..at] + slice[..brace] + b + text[at + |slice|..]
  {
    hide OccursAt, IndexOf;
  }

  /** Replacing the slice of an entry replaces its object and nothing else. */
  lemma ReplaceRefines(s: Snapshot, i: nat, b: string)
    requires WellFormed(s) && i < |s.entries|
    requires SliceText(s.entries[i]) != "" && exists p: nat :: OccursAt(Text(s), SliceText(s.entries[i]), p)
    ensures ReplaceSlice(Text(s), SliceText(s.entries[i]), b) == Text(WithBucket(s, i, b))
  {
    hide Text, Before, After, KeyText, BucketShaped, Free, Slug, WellFormed, OccursAt, IndexOf, ReplaceSlice;
    var e := s.entries[i];
    EntryIs(s, i);
    SliceOccurs(s, i);
    SliceBrace(e);
    IndexFits(Text(s), SliceText(e), KeyAt(s, i) + 1);
    ReplaceIs(Text(s), SliceText(e), b, KeyAt(s, i) + 1, |KeyText(e.id)| - 1);
    TextAt(s, i);
    WithBucketText(s, i, b);
    Spliced(Before(s, i), KeyText(e.id), e.bucket, b, After(s, i + 1));
  }

  lemma SliceBrace(e: Entry)
    requires Slug(e.id) && BucketShaped(e.bucket)
    ensures |KeyText(e.id)| > 0 && IndexOf(SliceText(e), "{", 0) == |KeyText(e.id)| - 1
    ensures SliceText(e) == KeyText(e.id)[1..] + e.bucket
  {
    NeedleOfSlug(e.id);
    BucketStarts(e.bucket);
    var key := KeyText(e.id);
    assert SliceText(e) == key[1..] + e.bucket;
    hide KeyText, BucketShaped, Slug;
    OccursHere("", key[1..], e.bucket);
    assert "" + key[1..] + e.bucket == key[1..] + e.bucket == key[1..] + e.bucket + "";
    OccursHere(key[1..], e.bucket, "");
    FirstBrace(SliceText(e), 0, key[1..], e.bucket);
  }

  lemma Spliced(pre: string, key: string, old_: string, b: string, post: string)
    requires key != ""
    ensures var text, slice := pre + (key + old_) + post, key[1..] + old_;
      text[..|pre| + 1] + slice[..|key| - 1] + b + text[|pre| + 1 + |slice|..] == pre + (key + b) + post
  {
    var text, slice := pre + (key + old_) + post, key[1..] + old_;
    assert text[..|pre| + 1] == pre + key[..1];
    assert slice[..|key| - 1] == key[1..];
    assert text[|pre| + 1 + |slice|..] == post;
    assert key == key[..1] + key[1..];
  }

  // ---- The list of kept providers -------------------------------------------------------------

  /** The list's own key is the first of its kind, and the list ends at the first bracket. */
  ghost predicate KeptFirst(s: Snapshot) {
    Absent(s.top + KEPT_OPEN, KEPT_OPEN, 0, |s.top|) && !Contains(s.kept, "]")
  }

  function WithKept(s: Snapshot, list: string): Snapshot { s.(kept := list) }

  lemma KeptRefines(s: Snapshot, list: string)
    requires s.entries != [] && KeptFirst(s)
    ensures ReplaceKept(Text(s), list) == Some(Text(WithKept(s, list)))
  {
    var rest := s.middle + PROVIDERS + " " + "{" + EntryText(s.entries[0]) + (Rest(s.entries, 1) + Foot(s));
    KeptText(s, rest);
    KeptText(WithKept(s, list), rest);
    hide EntryText, Rest, Foot, Text;
    ReplaceFirst(s.top, s.kept, rest, list);
  }

  lemma KeptText(s: Snapshot, rest: string)
    requires s.entries != []
    requires rest == s.middle + PROVIDERS + " " + "{" + EntryText(s.entries[0]) + (Rest(s.entries, 1) + Foot(s))
    ensures Text(s) == s.top + (KEPT_OPEN + s.kept + "]") + rest
  {
    hide EntryText, Rest, Foot;
    assert KEPT_OPEN == "\"kept_providers\": " + "[";
  }

  lemma ReplaceFirst(top: string, kept: string, rest: string, list: string)
    requires Absent(top + KEPT_OPEN, KEPT_OPEN, 0, |top|) && !Contains(kept, "]")
    ensures ReplaceKept(top + (KEPT_OPEN + kept + "]") + rest, list) == Some(top + (KEPT_OPEN + list + "]") + rest)
  {
    hide Contains, Absent, OccursAt, IndexOf;
    var text := top + (KEPT_OPEN + kept + "]") + rest;
    assert text == top + KEPT_OPEN + (kept + "]" + rest);
    FirstOf(top, KEPT_OPEN, kept + "]" + rest);
    var pre := top + KEPT_OPEN;
    assert text == pre + kept + "]" + rest;
    BracketAfter(pre, kept, rest);
    assert text[..|top|] == top && text[|pre| + |kept| + 1..] == rest;
  }

  lemma FirstOf(top: string, x: string, tail: string)
    requires Absent(top + x, x, 0, |top|)
    ensures IndexOf(top + x + tail, x, 0) == |top|
  {
    var text := top + x + tail;
    assert text == "" + (top + x) + tail;
    forall p | 0 <= p < |top| ensures !OccursAt(text, x, p)
    {
      OccursInside("", top + x, tail, x, p);
    }
    OccursHere(top, x, tail);
    FoundFirst(text, x, 0, |top|);
  }

  lemma BracketAfter(pre: string, kept: string, rest: string)
    requires !Contains(kept, "]")
    ensures IndexOf(pre + kept + "]" + rest, "]", |pre|) == |pre| + |kept|
  {
    var text := pre + kept + "]" + rest;
    assert text == pre + kept + ("]" + rest);
    ChunkAbsent(pre, kept, "]" + rest, "]");
    OccursHere(pre + kept, "]", rest);
    FoundFirst(text, "]", |pre|, |pre| + |kept|);
  }

  // ---- Appending a provider -------------------------------------------------------------------

  /** The providers' own key is the first of its kind. */
  ghost predicate ProvidersFirst(s: Snapshot) {
    && !Contains(Top(s), PROVIDERS) && !Contains("[" + s.kept, PROVIDERS)
    && Absent("]" + s.middle + PROVIDERS, PROVIDERS, 0, |"]" + s.middle|)
  }

  /** Everything up to the closing brace of the last provider. */
  function Body(s: Snapshot): string
    requires s.entries != []
  {
    Before(s, |s.entries| - 1) + EntryText(s.entries[|s.entries| - 1])
  }

  function Inner(es: seq<Entry>): string
    requires es != []
  {
    Front(es, |es| - 1) + EntryText(es[|es| - 1])
  }

  function WithEntry(s: Snapshot, e: Entry): Snapshot { s.(entries := s.entries + [e]) }

  lemma Associate(a: string, b: string, c: string)
    ensures (a + b) + c == a + (b + c)
  {
  }

  lemma TextOfBody(s: Snapshot)
    requires s.entries != []
    ensures Text(s) == Body(s) + Foot(s)
    ensures Body(s) == Head(s) + Inner(s.entries)
  {
    var n := |s.entries|;
    TextAt(s, n - 1);
    AfterAll(s);
    BodyHeads(s);
    hide Text, EntryText, Before, After, Head, Foot;
  }

  lemma BodyHeads(s: Snapshot)
    requires s.entries != []
    ensures Body(s) == Head(s) + Inner(s.entries)
  {
    hide EntryText, Front, Head;
    var n := |s.entries|;
    Associate(Head(s), Front(s.entries, n - 1), EntryText(s.entries[n - 1]));
  }

  lemma AfterAll(s: Snapshot)
    ensures After(s, |s.entries|) == Foot(s)
  {
    hide Foot;
    assert Rest(s.entries, |s.entries|) == "";
  }

  lemma FrontGrows(s: Snapshot, e: Entry)
    requires s.entries != []
    ensures var n := |s.entries|;
      Front(WithEntry(s, e).entries, n) == Front(s.entries, n - 1) + (EntryText(s.entries[n - 1]) + ",")
  {
    FrontSame(s.entries, WithEntry(s, e).entries, |s.entries| - 1);
    hide EntryText;
  }

  lemma BodyGrows(s: Snapshot, e: Entry)
    requires s.entries != []
    ensures Body(WithEntry(s, e)) == Body(s) + "," + EntryText(e)
  {
    hide EntryText, Head, Front;
    var n := |s.entries|;
    FrontGrows(s, e);
    SameHead(s, e);
    BodyIs(WithEntry(s, e), n);
    BodyIs(s, n - 1);
    Regrown(Head(s), Front(s.entries, n - 1), EntryText(s.entries[n - 1]));
  }

  lemma BodyIs(s: Snapshot, i: nat)
    requires i + 1 == |s.entries|
    ensures Body(s) == Head(s) + Front(s.entries, i) + EntryText(s.entries[i])
  {
  }

  lemma Regrown(head: string, front: string, last: string)
    ensures head + (front + (last + ",")) == head + front + last + ","
  {
  }

  lemma SameHead(s: Snapshot, e: Entry)
    ensures Head(WithEntry(s, e)) == Head(s)
  {
  }

  lemma EntryNeutral(e: Entry)
    requires BucketShaped(e.bucket)
    ensures Neutral(EntryText(e))
  {
    NeutralPlain("\n    ");
    NeutralPlain(": ");
    NeutralQuote(e.id);
    hide Neutral, R.Quote, Delimits;
    NeutralConcat("\n    ", R.Quote(e.id));
    NeutralConcat("\n    " + R.Quote(e.id), ": ");
    assert "\n    " + R.Quote(e.id) + ": " == KeyText(e.id);
    NeutralConcat(KeyText(e.id), e.bucket);
  }

  lemma {:induction false} FrontNeutral(es: seq<Entry>, i: nat)
    requires i <= |es| && forall e :: e in es ==> BucketShaped(e.bucket)
    ensures Neutral(Front(es, i))
  {
    if i == 0 {
      NeutralPlain("");
    } else {
      NeutralPlain(",");
      hide Neutral, EntryText, BucketShaped;
      FrontNeutral(es, i - 1);
      EntryNeutral(es[i - 1]);
      NeutralConcat(EntryText(es[i - 1]), ",");
      NeutralConcat(Front(es, i - 1), EntryText(es[i - 1]) + ",");
    }
  }

  lemma AllShaped(s: Snapshot)
    requires WellFormed(s)
    ensures s.entries != [] && forall e :: e in s.entries ==> BucketShaped(e.bucket)
  {
    hide BucketShaped, Slug, Free;
    forall e | e in s.entries ensures BucketShaped(e.bucket)
    {
      assert EntryShaped(s, e);
    }
  }

  lemma InnerNeutral(s: Snapshot)
    requires WellFormed(s)
    ensures Neutral(Inner(s.entries) + "\n  ")
  {
    AllShaped(s);
    hide Neutral, EntryText, BucketShaped, Front, WellFormed;
    var es, n := s.entries, |s.entries|;
    NeutralPlain("\n  ");
    FrontNeutral(es, n - 1);
    EntryNeutral(es[n - 1]);
    NeutralConcat(Front(es, n - 1), EntryText(es[n - 1]));
    NeutralConcat(Inner(es), "\n  ");
  }

  lemma RegroupBraces(pre: string, inner: string, tail: string)
    ensures (pre + "{") + inner + ("\n  }" + tail) == pre + ("{" + (inner + "\n  ") + "}") + tail
  {
    assert "\n  }" == "\n  " + "}";
  }

  /** The brace after the providers closes the brace before them. */
  lemma ProvidersClose(s: Snapshot)
    requires WellFormed(s)
    ensures |Head(s)| > 0 && BraceEnd(Text(s), |Head(s)| - 1, |Head(s)| - 1) == |Body(s)| + 3
  {
    var pre, inner := Top(s) + ("[" + s.kept) + Lead(s), Inner(s.entries);
    assert Head(s) == pre + "{";
    InnerNeutral(s);
    TextOfBody(s);
    hide Neutral, Top, Lead, Inner, Body, Text, Head, WellFormed, BraceEnd;
    NeutralBraces(inner + "\n  ");
    var b := "{" + (inner + "\n  ") + "}";
    RegroupBraces(pre, inner, s.tail);
    assert Delimits(pre, b, s.tail);
    assert |b| == |inner| + 5 && |Body(s)| == |pre| + 1 + |inner|;
    ClosesEnd(pre + b + s.tail, |pre|, |pre| + |b| - 1);
  }

  lemma ProvidersFound(s: Snapshot)
    requires s.entries != [] && ProvidersFirst(s)
    ensures var at := IndexOf(Text(s), PROVIDERS, 0);
      0 <= at && IndexOf(Text(s), "{", at) == |Head(s)| - 1
  {
    var pre, rest := Top(s) + ("[" + s.kept) + ("]" + s.middle), EntryText(s.entries[0]) + (Rest(s.entries, 1) + Foot(s));
    ChunksFree(Top(s), s.kept, "]" + s.middle, " " + ("{" + rest));
    HeadSplits(s, rest);
    hide Text, Top, EntryText, Rest, Foot, Head, ProvidersFirst, Contains, IndexOf;
    KeyFound(pre, " " + ("{" + rest));
    ProvidersKey(pre, rest);
    BraceFound(pre, PROVIDERS + " ", rest);
    assert Text(s) == Head(s) + rest by { TextIsHead(s); }
  }

  lemma TextIsHead(s: Snapshot)
    requires s.entries != []
    ensures Text(s) == Head(s) + (EntryText(s.entries[0]) + (Rest(s.entries, 1) + Foot(s)))
  {
    hide Head, EntryText, Rest, Foot;
    Associate(Head(s), EntryText(s.entries[0]), Rest(s.entries, 1) + Foot(s));
  }

  lemma HeadSplits(s: Snapshot, rest: string)
    ensures Head(s) + rest == (Top(s) + ("[" + s.kept) + ("]" + s.middle)) + PROVIDERS + (" " + ("{" + rest))
    ensures |Head(s)| == |Top(s) + ("[" + s.kept) + ("]" + s.middle)| + |PROVIDERS| + 2
  {
    hide Top;
  }

  lemma KeyFound(pre: string, rest: string)
    requires Absent(pre + PROVIDERS + rest, PROVIDERS, 0, |pre|)
    ensures IndexOf(pre + PROVIDERS + rest, PROVIDERS, 0) == |pre|
  {
    OccursHere(pre, PROVIDERS, rest);
    FoundFirst(pre + PROVIDERS + rest, PROVIDERS, 0, |pre|);
  }

  lemma BraceFound(pre: string, key: string, rest: string)
    requires forall k :: 0 <= k < |key| ==> key[k] != '{'
    ensures IndexOf(pre + key + ("{" + rest), "{", |pre|) == |pre| + |key|
  {
    hide OccursAt, IndexOf;
    var text, at := pre + key + ("{" + rest), |pre + key|;
    OccursHere(pre, key, "{" + rest);
    OccursHere(pre + key, "{", rest);
    Associate(pre + key, "{", rest);
    assert at == |pre| + |key| && OccursAt(text, "{", at);
    FirstBrace(text, |pre|, key, "{");
  }

  lemma ProvidersKey(pre: string, rest: string)
    ensures pre + PROVIDERS + (" " + ("{" + rest)) == pre + (PROVIDERS + " ") + ("{" + rest)
    ensures forall k :: 0 <= k < |PROVIDERS + " "| ==> (PROVIDERS + " ")[k] != '{'
  {
    Associate(PROVIDERS, " ", "{" + rest);
  }

  lemma ChunksFree(a: string, kept: string, c: string, rest: string)
    requires !Contains(a, PROVIDERS) && !Contains("[" + kept, PROVIDERS)
    requires c != "" && c[0] == ']' && Absent(c + PROVIDERS, PROVIDERS, 0, |c|)
    ensures Absent((a + ("[" + kept) + c) + PROVIDERS + rest, PROVIDERS, 0, |a + ("[" + kept) + c|)
  {
    var b := "[" + kept;
    var text := (a + b + c) + PROVIDERS + rest;
    hide Contains;
    assert text == "" + a + (b + c + PROVIDERS + rest);
    assert text == a + b + (c + PROVIDERS + rest);
    assert text == (a + b) + (c + PROVIDERS) + rest;
    ChunkAbsent("", a, b + c + PROVIDERS + rest, PROVIDERS);
    ChunkAbsent(a, b, c + PROVIDERS + rest, PROVIDERS);
    forall p | |a + b| <= p < |a + b + c| ensures !OccursAt(text, PROVIDERS, p)
    {
      OccursInside(a + b, c + PROVIDERS, rest, PROVIDERS, p);
    }
  }

  lemma BodyEnds(s: Snapshot)
    requires WellFormed(s)
    ensures Body(s) != "" && Body(s)[|Body(s)| - 1] == '}'
  {
    EntryIs(s, |s.entries| - 1);
    hide Head, KeyText, Front;
  }

  lemma SkipThree(text: string, p: nat, open: int)
    requires -1 <= open <= p && p + 3 < |text| && text[p + 1..p + 4] == "\n  " && !Whitespace(text[p])
    ensures SkipBack(text, p + 3, open) == p
  {
    assert text[p + 1] == text[p + 1..p + 4][0] && text[p + 2] == text[p + 1..p + 4][1] && text[p + 3] == text[p + 1..p + 4][2];
    assert Whitespace('\n') && Whitespace(' ');
    assert SkipBack(text, p + 2, open) == SkipBack(text, p + 1, open) == SkipBack(text, p, open) == p;
  }

  lemma AppendIs(text: string, id: string, b: string, keyAt: nat, open: nat, close: nat, previous: nat)
    requires IndexOf(text, PROVIDERS, 0) == keyAt && IndexOf(text, "{", keyAt) == open
    requires BraceEnd(text, open, open) == close && close <= |text| && close >= 1
    requires SkipBack(text, close - 1, open) == previous && previous < |text| && text[previous] == '}'
    ensures AppendProvider(text, id, b) == Some(text[..previous + 1] + Insertion(id, b) + text[close..])
  {
    hide IndexOf, BraceEnd, SkipBack, Insertion;
  }

  /** Where a provider is missing, the new one lands behind the last, with everything else in place. */
  lemma AppendRefines(s: Snapshot, id: string, b: string)
    requires WellFormed(s) && ProvidersFirst(s)
    ensures AppendProvider(Text(s), id, b) == Some(Text(WithEntry(s, Entry(id, b))))
  {
    hide ProvidersFirst, Text, Head, Body, EntryText, EntryShaped, Free, Distinct, Insertion, IndexOf, BraceEnd, SkipBack, AppendProvider;
    var text, close := Text(s), |Body(s)| + 3;
    ProvidersFound(s);
    ProvidersClose(s);
    TextOfBody(s);
    BodyEnds(s);
    BodyHead(s);
    assert text[|Body(s)|..|Body(s)| + 3] == "\n  ";
    assert text[|Body(s)| - 1] == '}';
    SkipThree(text, |Body(s)| - 1, |Head(s)| - 1);
    AppendIs(text, id, b, IndexOf(text, PROVIDERS, 0), |Head(s)| - 1, close, |Body(s)| - 1);
    AppendedText(s, id, b);
  }

  lemma BodyHead(s: Snapshot)
    requires s.entries != []
    ensures |Head(s)| <= |Body(s)| - 1
  {
    TextOfBody(s);
    hide Head, Body;
  }

  lemma AppendedText(s: Snapshot, id: string, b: string)
    requires s.entries != [] && |Body(s)| + 3 <= |Text(s)| && Text(s) == Body(s) + Foot(s)
    ensures Text(s)[..|Body(s)|] + Insertion(id, b) + Text(s)[|Body(s)| + 3..] == Text(WithEntry(s, Entry(id, b)))
  {
    hide Text, Body, EntryText, Insertion, WithEntry, Foot;
    var e, body := Entry(id, b), Body(s);
    GrownText(s, e);
    InsertionIs(e);
    FootSplits(body, s.tail);
    RegroupInsertion(body, EntryText(e), s.tail);
  }

  lemma GrownText(s: Snapshot, e: Entry)
    requires s.entries != []
    ensures Foot(s) == "\n  }" + s.tail
    ensures WithEntry(s, e).entries != []
    ensures Text(WithEntry(s, e)) == Body(s) + "," + EntryText(e) + ("\n  }" + s.tail)
  {
    TextOfBody(WithEntry(s, e));
    BodyGrows(s, e);
    hide Text, Body, EntryText;
  }

  lemma InsertionIs(e: Entry)
    ensures Insertion(e.id, e.bucket) == "," + EntryText(e) + "\n  "
  {
    hide R.Quote;
    assert ",\n    " == "," + "\n    ";
    assert KeyText(e.id) == "\n    " + R.Quote(e.id) + ": ";
  }

  lemma FootSplits(body: string, tail: string)
    ensures (body + ("\n  }" + tail))[..|body|] == body
    ensures (body + ("\n  }" + tail))[|body| + 3..] == "}" + tail
  {
  }

  lemma RegroupInsertion(body: string, entry: string, tail: string)
    ensures body + ("," + entry + "\n  ") + ("}" + tail) == body + "," + entry + ("\n  }" + tail)
  {
    assert "\n  }" == "\n  " + "}";
  }

  // ---- A missing provider ---------------------------------------------------------------------

  /** An id that is to be spliced: a slug whose needle stands nowhere but at its own entry, if any. */
  ghost predicate Spliceable(s: Snapshot, id: string) {
    Slug(id) && Free(s, Needle(id)) && !Contains(Foot(s), Needle(id))
  }

  /** The needle of an id that no entry has occurs nowhere. */
  lemma NoSlice(s: Snapshot, id: string)
    requires WellFormed(s) && Spliceable(s, id)
    requires forall e :: e in s.entries ==> e.id != id
    ensures ProviderSlice(Text(s), id).None?
  {
    hide Text, KeyAt, Body, Needle, Free, BucketShaped, Slug, Contains, Absent, EntryShaped, Foot, ProviderSlice;
    var n := |s.entries|;
    NeedleAbsent(s, n - 1, id);
    NotInLastEntry(s, id);
    NotInFoot(s, id);
    AbsentJoined(Text(s), Needle(id), 0, KeyAt(s, n - 1), |Body(s)|);
    AbsentJoined(Text(s), Needle(id), 0, |Body(s)|, |Text(s)| + 1);
    NowhereMeansNone(Text(s), id);
  }

  lemma NowhereMeansNone(text: string, id: string)
    requires Absent(text, Needle(id), 0, |text| + 1)
    ensures ProviderSlice(text, id).None?
  {
    hide Needle;
  }

  lemma NotInLastEntry(s: Snapshot, id: string)
    requires WellFormed(s) && Slug(id) && forall e :: e in s.entries ==> e.id != id
    ensures Absent(Text(s), Needle(id), KeyAt(s, |s.entries| - 1), |Body(s)|)
  {
    var i := |s.entries| - 1;
    var e := s.entries[i];
    EntryIs(s, i);
    TextAt(s, i);
    AfterStarts(s, i + 1);
    EntryMarks(Before(s, i), e, After(s, i + 1));
    KeyOccurs(s, i);
    NeedleOfSlug(id);
    assert |Body(s)| == KeyAt(s, i) + |EntryText(e)|;
    hide Text, Before, After, EntryText, Needle, BucketShaped, WellFormed, OccursAt, Body, KeyAt;
    forall p | KeyAt(s, i) <= p < |Body(s)| ensures !OccursAt(Text(s), Needle(id), p)
    {
      if OccursAt(Text(s), Needle(id), p) {
        OccursPrefix(Text(s), MARK, id + "\":", p);
        assert p == KeyAt(s, i);
        NeedlesDiffer(Text(s), id, e.id, p);
      }
    }
    AbsentFrom(Text(s), Needle(id), KeyAt(s, i), |Body(s)|);
  }

  lemma NotInFoot(s: Snapshot, id: string)
    requires s.entries != [] && !Contains(Foot(s), Needle(id))
    ensures Absent(Text(s), Needle(id), |Body(s)|, |Text(s)| + 1)
  {
    TextOfBody(s);
    hide Text, Body, Foot, Needle;
    var text, body, foot, x := Text(s), Body(s), Foot(s), Needle(id);
    assert text == body + foot + "";
    forall p | |body| <= p < |text| + 1 ensures !OccursAt(text, x, p)
    {
      if p + |x| <= |text| {
        OccursInside(body, foot, "", x, p);
        assert p - |body| <= |foot| && !OccursAt(foot, x, p - |body|);
      }
    }
  }

  // ---- What splicing keeps --------------------------------------------------------------------

  /** Text on one line holds no pattern with a line break in it. */
  lemma NotOnOneLine(chunk: string, x: string, k: nat)
    requires L.OneLine(chunk) && k < |x| && x[k] == '\n'
    ensures !Contains(chunk, x)
  {
    forall p: nat | p <= |chunk| ensures !OccursAt(chunk, x, p)
    {
      if OccursAt(chunk, x, p) {
        OccursChar(chunk, x, p, k);
      }
    }
  }

  /** A replaced list of kept providers: on one line, and closed by its own bracket. */
  predicate KeptList(list: string) { L.OneLine(list) && !Contains(list, "]") }

  lemma FreeOfKept(s: Snapshot, list: string, x: string, k: nat)
    requires Free(s, x) && KeptList(list) && k < |x| && x[k] == '\n'
    ensures Free(WithKept(s, list), x)
  {
    assert L.OneLine("[" + list);
    hide Contains;
    NotOnOneLine("[" + list, x, k);
  }

  ghost predicate Ready(s: Snapshot, id: string) {
    WellFormed(s) && KeptFirst(s) && ProvidersFirst(s) && Spliceable(s, id)
  }

  lemma KeptKeepsReady(s: Snapshot, list: string, id: string)
    requires Ready(s, id) && KeptList(list)
    ensures Ready(WithKept(s, list), id)
  {
    var t := WithKept(s, list);
    NeedleOfSlug(id);
    NeedleNoBrackets(id);
    FreeOfKept(s, list, Needle(id), 0);
    FreeOfKept(s, list, OPENER, 1);
    assert L.OneLine("[" + list);
    NotOnOneLine("[" + list, PROVIDERS, 0);
    hide Needle, BucketShaped, Slug, Contains, Absent;
    forall e | e in t.entries ensures EntryShaped(t, e)
    {
      assert EntryShaped(s, e);
      NeedleNoBrackets(e.id);
      FreeOfKept(s, list, Needle(e.id), 0);
    }
  }

  lemma BucketKeepsReady(s: Snapshot, i: nat, b: string, id: string)
    requires Ready(s, id) && i < |s.entries| && BucketShaped(b)
    ensures Ready(WithBucket(s, i, b), id)
  {
    var t := WithBucket(s, i, b);
    hide BucketShaped, Slug, Contains, Absent, Needle;
    forall e | e in t.entries ensures EntryShaped(t, e)
    {
      var k :| 0 <= k < |t.entries| && t.entries[k] == e;
      assert EntryShaped(s, s.entries[k]);
    }
  }

  lemma EntryKeepsReady(s: Snapshot, b: string, id: string)
    requires Ready(s, id) && BucketShaped(b) && forall e :: e in s.entries ==> e.id != id
    ensures Ready(WithEntry(s, Entry(id, b)), id)
  {
    var t := WithEntry(s, Entry(id, b));
    hide BucketShaped, Slug, Contains, Absent, Needle;
    forall e | e in t.entries ensures EntryShaped(t, e)
    {
      assert e in s.entries ==> EntryShaped(s, e);
    }
    forall i, j | 0 <= i < j < |t.entries| ensures t.entries[i].id != t.entries[j].id
    {
      assert s.entries[i] in s.entries;
    }
  }

  // ---- Rendered buckets -----------------------------------------------------------------------

  /** The bucket of a provider: an object with at least one field. */
  predicate Bucket(j: L.Json) { L.Valid(j) && j.Object? && L.Size(j) > 0 }

  /** What the renderer makes of a bucket has the layout of a provider object. */
  lemma RenderedIsShaped(j: L.Json)
    requires Bucket(j)
    ensures BucketShaped(RenderBucket(j))
  {
    hide L.Show, L.ShowParts, L.Valid, L.Size, L.Shaped, L.Indent, L.Break, Neutral, Delimits;
    L.IndentedLayout(j, 0, 4);
    L.LayoutIsNeutral(j, 4);
    L.ShowCases(j, 4);
    L.PartsAreShaped(j, L.Size(j), 6);
    PartsStart(j, L.Size(j), 6);
    var parts := L.ShowParts(j, L.Size(j), 6);
    BucketOfParts(parts);
    assert RenderBucket(j) == "{" + (parts + L.Break(4)) + "}";
  }

  /** The fields of an object start with a line break, the indentation and a quote. */
  lemma {:induction false} PartsStart(j: L.Json, k: nat, n: nat)
    requires j.Object? && 1 <= k <= L.Size(j)
    ensures |L.ShowParts(j, k, n)| > n + 1
    ensures L.ShowParts(j, k, n)[..n + 2] == "\n" + L.Pad(n) + "\""
  {
    hide L.Show, R.Body, L.ShowParts;
    L.PartsCases(j, k, n);
    if k == 1 {
      L.PartsCases(j, 0, n);
      FieldStarts(j, n);
    } else {
      PartsStart(j, k - 1, n);
      var before := L.ShowParts(j, k - 1, n);
      assert L.ShowParts(j, k, n)[..|before|] == before;
    }
  }

  lemma FieldStarts(j: L.Json, n: nat)
    requires j.Object? && L.Size(j) >= 1
    ensures var first := L.Append("", true, n, L.ShowPart(j, 0, n));
      |first| > n + 1 && first[..n + 2] == "\n" + L.Pad(n) + "\""
  {
    hide L.Show, R.Body;
    var part := L.ShowPart(j, 0, n);
    assert part[0] == '"';
    assert L.Append("", true, n, part) == "\n" + L.Pad(n) + part;
  }

  lemma BucketOfParts(parts: string)
    requires L.Shaped(parts, 6) && |parts| > 7 && parts[..8] == "\n" + L.Pad(6) + "\""
    ensures var b := "{" + (parts + L.Break(4)) + "}";
      OccursAt(b, OPENER, 0) && Absent(b, OPENER, 1, |b|) && !Contains(b, MARK)
  {
    var b := "{" + (parts + L.Break(4)) + "}";
    SixSpaces();
    assert b[..9] == "{" + parts[..8];
    forall p | 1 <= p < |b| ensures !OccursAt(b, OPENER, p)
    {
      NoOpenerAt(parts, p);
    }
    forall p: nat | p <= |b| ensures !OccursAt(b, MARK, p)
    {
      NoMarkAt(parts, p);
    }
  }

  lemma SixSpaces()
    ensures "{" + ("\n" + L.Pad(6) + "\"") == OPENER
  {
  }

  /** Behind a line break in the fields stand six spaces, behind an inner opening brace eight. */
  lemma SpacesBehind(parts: string, p: nat)
    requires L.Shaped(parts, 6) && p < |parts| && parts[p] == '\n'
    ensures p + 6 < |parts| && parts[p + 5] == ' '
    ensures p > 0 && parts[p - 1] == '{' ==> p + 8 < |parts| && parts[p + 7] == ' '
  {
    assert L.ShapedAt(parts, 6, p);
  }

  lemma NoOpenerAt(parts: string, p: nat)
    requires L.Shaped(parts, 6) && 1 <= p
    ensures !OccursAt("{" + (parts + L.Break(4)) + "}", OPENER, p)
  {
    var b := "{" + (parts + L.Break(4)) + "}";
    if p < |parts| && parts[p] == '\n' {
      SpacesBehind(parts, p);
    }
    if OccursAt(b, OPENER, p) {
      OccursChar(b, OPENER, p, 0);
      OccursChar(b, OPENER, p, 1);
      OccursChar(b, OPENER, p, 8);
      assert false;
    }
  }

  lemma NoMarkAt(parts: string, p: nat)
    requires L.Shaped(parts, 6)
    ensures !OccursAt("{" + (parts + L.Break(4)) + "}", MARK, p)
  {
    var b := "{" + (parts + L.Break(4)) + "}";
    if 1 <= p <= |parts| && parts[p - 1] == '\n' {
      SpacesBehind(parts, p - 1);
    }
    if OccursAt(b, MARK, p) {
      OccursChar(b, MARK, p, 0);
      OccursChar(b, MARK, p, 5);
      assert false;
    }
  }

  // ---- The splice -----------------------------------------------------------------------------

  /** The snapshot with the list of kept providers replaced and one provider replaced or appended. */
  function Result(s: Snapshot, id: string, b: string, list: string): Snapshot {
    Put(WithKept(s, list), id, b)
  }

  function Put(s: Snapshot, id: string, b: string): Snapshot {
    var i := Find(s.entries, id);
    if i < |s.entries| then WithBucket(s, i, b) else WithEntry(s, Entry(id, b))
  }

  function Find(es: seq<Entry>, id: string): (i: nat)
    ensures i <= |es|
    ensures i < |es| ==> es[i].id == id
    ensures forall j :: 0 <= j < i ==> es[j].id != id
  {
    if es == [] || es[0].id == id then 0 else 1 + Find(es[1..], id)
  }

  lemma PutRefines(s: Snapshot, id: string, b: string)
    requires Ready(s, id) && BucketShaped(b)
    ensures Ready(Put(s, id, b), id)
    ensures match ProviderSlice(Text(s), id)
      case Some(slice) => slice != "" && Text(Put(s, id, b)) == ReplaceSlice(Text(s), slice, b)
      case None => AppendProvider(Text(s), id, b) == Some(Text(Put(s, id, b)))
  {
    hide WellFormed, KeptFirst, ProvidersFirst, Spliceable, BucketShaped, Text, ProviderSlice, ReplaceSlice, AppendProvider, OccursAt;
    var i := Find(s.entries, id);
    if i < |s.entries| {
      SliceOfEntry(s, i);
      NonEmptySlice(s, i);
      ReplaceRefines(s, i, b);
      BucketKeepsReady(s, i, b, id);
    } else {
      forall e | e in s.entries ensures e.id != id
      {
        var k :| 0 <= k < |s.entries| && s.entries[k] == e;
      }
      NoSlice(s, id);
      AppendRefines(s, id, b);
      EntryKeepsReady(s, b, id);
    }
  }

  lemma NonEmptySlice(s: Snapshot, i: nat)
    requires WellFormed(s) && i < |s.entries|
    ensures SliceText(s.entries[i]) != ""
  {
    EntryIs(s, i);
    SliceBrace(s.entries[i]);
    BucketStarts(s.entries[i].bucket);
    hide KeyText, BucketShaped;
  }

  /**
   * The splice on text is the splice on providers: the script turns the text of a laid-out snapshot
   * into the text of the same snapshot with the list and the one provider exchanged.
   */
  lemma SpliceRefines(s: Snapshot, id: string, bucket: L.Json, list: string)
    requires Ready(s, id) && Bucket(bucket) && KeptList(list)
    ensures Ready(Result(s, id, RenderBucket(bucket), list), id)
    ensures SpliceProvider(Text(s), id, RenderBucket(bucket), list)
         == Some(Text(Result(s, id, RenderBucket(bucket), list)))
  {
    hide WellFormed, KeptFirst, ProvidersFirst, Spliceable, Bucket, KeptList, BucketShaped, RenderBucket, Text, Put,
         ProviderSlice, ReplaceSlice, ReplaceKept, AppendProvider;
    ReadyParts(s, id);
    KeptRefines(s, list);
    KeptKeepsReady(s, list, id);
    RenderedIsShaped(bucket);
    PutRefines(WithKept(s, list), id, RenderBucket(bucket));
  }

  lemma ReadyParts(s: Snapshot, id: string)
    requires Ready(s, id)
    ensures s.entries != []
  {
  }

  /** Before the splice and after it, every provider but the spliced one has the same slice, byte for byte. */
  lemma OtherSlicesStay(s: Snapshot, id: string, bucket: L.Json, list: string, k: nat)
    requires Ready(s, id) && Bucket(bucket) && KeptList(list) && k < |s.entries| && s.entries[k].id != id
    ensures Ready(Result(s, id, RenderBucket(bucket), list), id)
    ensures ProviderSlice(Text(Result(s, id, RenderBucket(bucket), list)), s.entries[k].id)
         == ProviderSlice(Text(s), s.entries[k].id)
  {
    hide Bucket, KeptList, BucketShaped, RenderBucket, Text, ProviderSlice;
    SpliceRefines(s, id, bucket, list);
    SliceOfEntry(s, k);
    SliceOfEntry(Result(s, id, RenderBucket(bucket), list), k);
  }

  /** The slice of the spliced provider is its key and the rendered bucket. */
  lemma TargetSliceIsRendered(s: Snapshot, id: string, bucket: L.Json, list: string)
    requires Ready(s, id) && Bucket(bucket) && KeptList(list)
    ensures Ready(Result(s, id, RenderBucket(bucket), list), id)
    ensures ProviderSlice(Text(Result(s, id, RenderBucket(bucket), list)), id)
         == Some("    " + R.Quote(id) + ": " + RenderBucket(bucket))
  {
    hide Bucket, KeptList, BucketShaped, RenderBucket, Text, ProviderSlice, R.Quote;
    SpliceRefines(s, id, bucket, list);
    var t, i := Result(s, id, RenderBucket(bucket), list), Find(s.entries, id);
    SliceOfEntry(t, i);
    assert t.entries[i] == Entry(id, RenderBucket(bucket));
    SliceSpelledOut(t.entries[i]);
  }

  lemma SliceSpelledOut(e: Entry)
    ensures SliceText(e) == "    " + R.Quote(e.id) + ": " + e.bucket
  {
    hide R.Quote;
    assert EntryText(e) == "\n" + ("    " + R.Quote(e.id) + ": " + e.bucket);
  }

  /** Splicing the same provider a second time changes nothing. */
  lemma SpliceTwice(s: Snapshot, id: string, bucket: L.Json, list: string)
    requires Ready(s, id) && Bucket(bucket) && KeptList(list)
    ensures SpliceProvider(Text(s), id, RenderBucket(bucket), list).Some?
    ensures var once := SpliceProvider(Text(s), id, RenderBucket(bucket), list).value;
      SpliceProvider(once, id, RenderBucket(bucket), list) == Some(once)
  {
    hide Bucket, KeptList, BucketShaped, RenderBucket, Text, SpliceProvider, WellFormed, KeptFirst, ProvidersFirst, Spliceable;
    SpliceRefines(s, id, bucket, list);
    var b := RenderBucket(bucket);
    var t := Result(s, id, b, list);
    SpliceRefines(t, id, bucket, list);
    PutTwice(WithKept(s, list), id, b);
    assert WithKept(t, list) == t;
  }

  lemma PutTwice(s: Snapshot, id: string, b: string)
    ensures Put(Put(s, id, b), id, b) == Put(s, id, b)
  {
    var t, i := Put(s, id, b), Find(s.entries, id);
    assert t.entries[i] == Entry(id, b);
    assert Find(t.entries, id) == i;
    assert t.entries[i := Entry(id, b)] == t.entries;
  }

  /** The drift guard lets a splice pass that the formatter has left alone. */
  lemma GuardPassesSplice(s: Snapshot, id: string, bucket: L.Json, list: string)
    requires Ready(s, id) && Bucket(bucket) && KeptList(list)
    ensures Ready(Result(s, id, RenderBucket(bucket), list), id)
    ensures var ids := seq(|s.entries|, k requires 0 <= k < |s.entries| => s.entries[k].id);
      var written := Text(Result(s, id, RenderBucket(bucket), list));
      DriftGuard(Text(s), written, ids, id) == written
  {
    hide Bucket, KeptList, BucketShaped, RenderBucket, Text, ProviderSlice, WellFormed, KeptFirst, ProvidersFirst, Spliceable;
    SpliceRefines(s, id, bucket, list);
    var written := Text(Result(s, id, RenderBucket(bucket), list));
    forall k | 0 <= k < |s.entries| && s.entries[k].id != id
      ensures ProviderSlice(Text(s), s.entries[k].id) == ProviderSlice(written, s.entries[k].id)
    {
      OtherSlicesStay(s, id, bucket, list, k);
    }
  }
}
