/**
 * Replacing one provider in the text of a catalog snapshot, and why nothing else moves.
 */
module CatalogSplice {
  import opened Wrappers
  import opened JsonBraces
  import opened TextSearch
  import L = JsonLayout
  import R = RelationKey

  // ---- The script's functions -----------------------------------------------------------------

  /** The search string for a provider's key: a line break, four spaces, the key as JSON, a colon. */
  function Needle(id: string): string { "\n    " + R.Quote(id) + ":" }

  /** From the key line through the closing brace of the provider object. */
  function ProviderSlice(text: string, id: string): (slice: Option<string>)
    ensures slice.Some? ==> exists p: nat :: OccursAt(text, slice.value, p)
  {
    var at := IndexOf(text, Needle(id), 0);
    if at < 0 then None
    else
      var open := IndexOf(text, "{", at);
      var close := BraceEnd(text, Origin(open), Origin(open));
      if close < 0 then None
      else if close < at then
        assert OccursAt(text, "", 0);
        Some("")
      else
        assert OccursAt(text, text[at + 1..close + 1], at + 1);
        Some(text[at + 1..close + 1])
  }

  function RenderBucket(bucket: L.Json): string { L.Indent(L.Show(bucket, 0), 4) }

  const KEPT_OPEN := "\"kept_providers\": ["
  const PROVIDERS := "\n  \"providers\":"

  /** The first bracketed list of kept providers, replaced; the leftmost match of the pattern. */
  function ReplaceKept(text: string, list: string): Option<string> {
    var at := IndexOf(text, KEPT_OPEN, 0);
    if at < 0 then None
    else
      var close := IndexOf(text, "]", at + |KEPT_OPEN|);
      if close < 0 then None else Some(text[..at] + (KEPT_OPEN + list + "]") + text[close + 1..])
  }

  /** The characters a regular expression counts as white space. */
  predicate Whitespace(c: char) {
    var u := c as int;
    9 <= u <= 13 || u in {32, 160, 5760, 8232, 8233, 8239, 8287, 12288, 65279} || 8192 <= u <= 8202
  }

  function SkipBack(text: string, p: int, open: int): (back: int)
    requires -1 <= open && -1 <= p < |text|
    ensures -1 <= back <= p
    decreases p - open
  {
    if p > open && Whitespace(text[p]) then SkipBack(text, p - 1, open) else p
  }

  /** The snapshot with one provider replaced or appended; nothing when the script exits instead. */
  function SpliceProvider(text: string, id: string, rendered: string, list: string): Option<string> {
    match ReplaceKept(text, list)
    case None => None
    case Some(kept) =>
      var existing := ProviderSlice(kept, id);
      if existing.Some? && existing.value != "" then Some(ReplaceSlice(kept, existing.value, rendered))
      else AppendProvider(kept, id, rendered)
  }

  function ReplaceSlice(kept: string, existing: string, rendered: string): string
    requires existing != "" && exists p: nat :: OccursAt(kept, existing, p)
  {
    var at, brace := IndexOf(kept, existing, 0), IndexOf(existing, "{", 0);
    kept[..at] + existing[..if brace < 0 then |existing| - 1 else brace] + rendered + kept[at + |existing|..]
  }

  function AppendProvider(kept: string, id: string, rendered: string): Option<string> {
    var keyAt := IndexOf(kept, PROVIDERS, 0);
    var open := IndexOf(kept, "{", Origin(keyAt));
    var close := BraceEnd(kept, Origin(open), Origin(open));
    if keyAt < 0 || close < 0 then None
    else
      var previous := SkipBack(kept, close - 1, open);
      if previous < 0 || kept[previous] != '}' then None
      else Some(kept[..previous + 1] + Insertion(id, rendered) + kept[close..])
  }

  function Insertion(id: string, rendered: string): string {
    ",\n    " + R.Quote(id) + ": " + rendered + "\n  "
  }

  /** After formatting: the previous snapshot again if another provider's slice has changed. */
  function DriftGuard(previous: string, written: string, ids: seq<string>, only: string): (kept: string)
    ensures kept == previous || kept == written
    ensures forall id :: id in ids && id != only ==> ProviderSlice(kept, id) == ProviderSlice(previous, id)
  {
    if exists id :: id in ids && id != only && ProviderSlice(previous, id) != ProviderSlice(written, id) then previous
    else written
  }
}
