/**
 * What a full run of the generator writes is a laid-out snapshot, ready for any provider to be
 * spliced that is not named like one of the snapshot's own metadata keys.
 */
module CatalogGenerated {
  import opened JsonBraces
  import opened CatalogSplice
  import opened CatalogLayout
  import opened TextSearch
  import L = JsonLayout
  import R = RelationKey

  datatype Meta = Meta(source: string, retrievedAt: string, trim: string, kept: seq<string>)

  /** The value a full run serialises. */
  function SnapshotJson(m: Meta, providers: seq<L.Field>): L.Json {
    L.Object([
      L.Field("_meta", L.Object([
        L.Field("source", L.Text(m.source)), L.Field("retrieved_at", L.Text(m.retrievedAt)),
        L.Field("trim", L.Text(m.trim)), L.Field("kept_providers", KeptJson(m.kept))])),
      L.Field("providers", L.Object(providers))])
  }

  function KeptJson(ids: seq<string>): L.Json { L.List(seq(|ids|, i requires 0 <= i < |ids| => L.Text(ids[i]))) }

  function Generated(m: Meta, providers: seq<L.Field>): string { L.Show(SnapshotJson(m, providers), 0) + "\n" }

  function FieldLine(name: string, value: string): string { Needle(name) + " " + (R.Quote(value) + ",") }

  function TopOf(m: Meta): string {
    "{" + "\n  \"_meta\": {" + FieldLine("source", m.source) + FieldLine("retrieved_at", m.retrievedAt)
    + FieldLine("trim", m.trim) + "\n    "
  }

  function EntriesOf(providers: seq<L.Field>): seq<Entry> {
    seq(|providers|, i requires 0 <= i < |providers| => Entry(providers[i].name, L.Show(providers[i].value, 4)))
  }

  function KeptText(m: Meta): string { L.ShowParts(KeptJson(m.kept), |m.kept|, 6) + L.Break(4) }

  function SnapshotOf(m: Meta, providers: seq<L.Field>): Snapshot {
    Snapshot(TopOf(m), KeptText(m), "\n  },", EntriesOf(providers), "\n}\n")
  }

  // ---- The text -------------------------------------------------------------------------------

  lemma AppendEntry(before: string, first: bool, part: string, entry: string)
    requires "\n    " + part == entry
    ensures L.Append(before, first, 4, part) == before + ((if first then "" else ",") + entry)
  {
    Breaks();
    hide L.Pad, L.Break;
    var comma := if first then "" else ",";
    assert comma + "\n    " + part == comma + ("\n    " + part);
  }

  lemma {:induction false} ShowProviders(providers: seq<L.Field>, k: nat)
    requires k < |providers|
    ensures L.ShowParts(L.Object(providers), k + 1, 4)
         == Front(EntriesOf(providers), k) + EntryText(EntriesOf(providers)[k])
  {
    hide L.Show, L.ShowParts, L.ShowPart, L.Append, EntryText;
    var j, es := L.Object(providers), EntriesOf(providers);
    L.PartsCases(j, k + 1, 4);
    ProviderEntry(providers, k);
    AppendEntry(L.ShowParts(j, k, 4), k == 0, L.ShowPart(j, k, 4), EntryText(es[k]));
    if k == 0 {
      L.PartsCases(j, 0, 4);
      assert Front(es, 0) == "";
    } else {
      ShowProviders(providers, k - 1);
    }
  }

  lemma Breaks()
    ensures L.Break(2) == "\n  " && L.Break(4) == "\n    " && L.Break(0) == "\n"
  {
    assert L.Pad(4) == "    " && L.Pad(2) == "  " && L.Pad(0) == "";
  }

  lemma ProviderEntry(providers: seq<L.Field>, k: nat)
    requires k < |providers|
    ensures "\n    " + L.ShowPart(L.Object(providers), k, 4) == EntryText(EntriesOf(providers)[k])
  {
    hide L.Show, R.Quote;
    var e := EntriesOf(providers)[k];
    assert L.ShowPart(L.Object(providers), k, 4) == R.Quote(e.id) + ": " + e.bucket;
    assert KeyText(e.id) == "\n    " + R.Quote(e.id) + ": ";
  }

  function MetaJson(m: Meta): L.Json { SnapshotJson(m, []).fields[0].value }

  /** The names of the generated keys are JSON strings as they stand. */
  lemma PlainNames()
    ensures R.Quote("_meta") == "\"_meta\"" && R.Quote("providers") == "\"providers\""
    ensures R.Quote("kept_providers") == "\"kept_providers\""
  {
    hide R.Quote, R.Body, Slug;
    PlainName("_meta");
    PlainName("providers");
    PlainName("kept_providers");
  }

  predicate Letter(c: char) { 'a' <= c <= 'z' || c == '_' }

  lemma PlainName(name: string)
    requires forall i :: 0 <= i < |name| ==> Letter(name[i])
    ensures Slug(name) && R.Quote(name) == "\"" + name + "\""
  {
    SlugBody(name);
  }

  /** The first fields of the metadata, one line each. */
  lemma ShowFirstFields(m: Meta)
    ensures L.ShowParts(MetaJson(m), 1, 4) + "," == FieldLine("source", m.source)
    ensures L.ShowParts(MetaJson(m), 2, 4) + "," == FieldLine("source", m.source) + FieldLine("retrieved_at", m.retrievedAt)
    ensures L.ShowParts(MetaJson(m), 3, 4) + ","
         == FieldLine("source", m.source) + FieldLine("retrieved_at", m.retrievedAt) + FieldLine("trim", m.trim)
  {
    hide L.ShowParts, FieldLine;
    L.PartsCases(MetaJson(m), 0, 4);
    ShowField(m, 0, "source", m.source);
    ShowField(m, 1, "retrieved_at", m.retrievedAt);
    ShowField(m, 2, "trim", m.trim);
  }

  lemma ShowField(m: Meta, i: nat, name: string, value: string)
    requires i < 3 && MetaJson(m).fields[i] == L.Field(name, L.Text(value))
    ensures L.ShowParts(MetaJson(m), i + 1, 4) + ","
         == L.ShowParts(MetaJson(m), i, 4) + (if i == 0 then "" else ",") + FieldLine(name, value)
  {
    hide L.ShowParts, L.Append, R.Quote, L.Show;
    var j, comma := MetaJson(m), if i == 0 then "" else ",";
    L.PartsCases(j, i + 1, 4);
    assert L.Show(L.Text(value), 4) == R.Quote(value) by { L.ShowCases(L.Text(value), 4); }
    var part := R.Quote(name) + ": " + R.Quote(value);
    assert L.ShowPart(j, i, 4) == part;
    var line := "\n    " + part;
    AppendEntry(L.ShowParts(j, i, 4), i == 0, part, line);
    assert FieldLine(name, value) == line + ",";
  }

  function FieldLines(m: Meta): string {
    FieldLine("source", m.source) + FieldLine("retrieved_at", m.retrievedAt) + FieldLine("trim", m.trim)
  }

  lemma ShowKept(m: Meta)
    requires m.kept != []
    ensures L.Show(KeptJson(m.kept), 4) == "[" + KeptText(m) + "]"
  {
    hide L.ShowParts, L.Show, L.Break;
    L.ShowCases(KeptJson(m.kept), 4);
    assert L.Size(KeptJson(m.kept)) == |m.kept|;
  }

  lemma ShowFields(m: Meta)
    requires m.kept != []
    ensures L.ShowParts(MetaJson(m), 4, 4)
         == FieldLines(m) + ("\n    " + ("\"kept_providers\": " + ("[" + KeptText(m) + "]")))
  {
    hide L.ShowParts, L.Append, R.Quote, FieldLine, L.Show, KeptText;
    var j := MetaJson(m);
    ShowFirstFields(m);
    L.PartsCases(j, 4, 4);
    ShowKept(m);
    PlainNames();
    var part := "\"kept_providers\": " + ("[" + KeptText(m) + "]");
    assert L.ShowPart(j, 3, 4) == part;
    AppendEntry(L.ShowParts(j, 3, 4), false, part, "\n    " + part);
    Associate(L.ShowParts(j, 3, 4), ",", "\n    " + part);
  }

  lemma ShowMeta(m: Meta)
    requires m.kept != []
    ensures "{" + "\n  \"_meta\": " + L.Show(MetaJson(m), 2)
         == TopOf(m) + "\"kept_providers\": " + ("[" + KeptText(m)) + "]" + "\n  }"
  {
    hide L.ShowParts, L.Show, FieldLine, KeptText;
    L.ShowCases(MetaJson(m), 2);
    ShowFields(m);
    Breaks();
    hide L.Break;
    RegroupMeta(FieldLine("source", m.source), FieldLine("retrieved_at", m.retrievedAt), FieldLine("trim", m.trim), KeptText(m));
  }

  lemma RegroupMeta(a: string, b: string, c: string, kept: string)
    ensures "{" + "\n  \"_meta\": "
              + ("{" + (a + b + c + ("\n    " + ("\"kept_providers\": " + ("[" + kept + "]"))) + "\n  ") + "}")
         == "{" + "\n  \"_meta\": {" + a + b + c + "\n    " + "\"kept_providers\": " + ("[" + kept) + "]" + "\n  }"
  {
    assert "\n  \"_meta\": {" == "\n  \"_meta\": " + "{";
    assert "\n  }" == "\n  " + "}";
  }

  lemma ShowOuter(m: Meta, providers: seq<L.Field>)
    ensures L.ShowParts(SnapshotJson(m, providers), 2, 2)
         == ("\n  \"_meta\": " + L.Show(MetaJson(m), 2)) + ("," + "\n  " + ("\"providers\": " + L.Show(L.Object(providers), 2)))
  {
    hide L.ShowParts, L.Show, R.Quote, L.Break;
    var j := SnapshotJson(m, providers);
    L.PartsCases(j, 2, 2);
    L.PartsCases(j, 1, 2);
    L.PartsCases(j, 0, 2);
    PlainNames();
    Breaks();
    assert L.ShowPart(j, 0, 2) == "\"_meta\": " + L.Show(MetaJson(m), 2);
    assert L.ShowPart(j, 1, 2) == "\"providers\": " + L.Show(L.Object(providers), 2);
    assert "\n  " + ("\"_meta\": " + L.Show(MetaJson(m), 2)) == "\n  \"_meta\": " + L.Show(MetaJson(m), 2);
  }

  lemma ShowWhole(m: Meta, providers: seq<L.Field>)
    requires providers != []
    ensures Generated(m, providers)
         == "{" + ("\n  \"_meta\": " + L.Show(MetaJson(m), 2))
            + ("," + "\n  " + ("\"providers\": " + ("{" + (Inner(EntriesOf(providers)) + "\n  ") + "}")))
            + "\n" + "}" + "\n"
  {
    hide L.ShowParts, L.Show, EntryText, Front, L.Break;
    var n := |providers|;
    ShowOuter(m, providers);
    L.ShowCases(SnapshotJson(m, providers), 0);
    L.ShowCases(L.Object(providers), 2);
    ShowProviders(providers, n - 1);
    Breaks();
    var meta, provs := "\n  \"_meta\": " + L.Show(MetaJson(m), 2), "," + "\n  " + ("\"providers\": " + L.Show(L.Object(providers), 2));
    assert "{" + (meta + provs + "\n") + "}" + "\n" == "{" + meta + provs + "\n" + "}" + "\n";
  }

  lemma SnapshotText(m: Meta, providers: seq<L.Field>)
    requires providers != []
    ensures SnapshotOf(m, providers).entries != []
    ensures Text(SnapshotOf(m, providers))
         == TopOf(m) + "\"kept_providers\": " + ("[" + KeptText(m)) + ("]" + "\n  }," + PROVIDERS + " ") + "{"
            + Inner(EntriesOf(providers)) + ("\n  }" + "\n}\n")
  {
    assert |EntriesOf(providers)| == |providers|;
    hide L.Show, EntryText, TopOf, Front, Inner, EntriesOf, KeptText, Text, Body;
    TextOfBody(SnapshotOf(m, providers));
  }

  /** A full run writes the text of its snapshot. */
  lemma GeneratedIsText(m: Meta, providers: seq<L.Field>)
    requires m.kept != [] && providers != []
    ensures SnapshotOf(m, providers).entries != []
    ensures Generated(m, providers) == Text(SnapshotOf(m, providers))
  {
    assert |EntriesOf(providers)| == |providers|;
    hide L.Show, TopOf, Inner, EntriesOf, KeptText, MetaJson, Generated, Text;
    ShowWhole(m, providers);
    ShowMeta(m);
    SnapshotText(m, providers);
    Associate("{", "\n  \"_meta\": ", L.Show(MetaJson(m), 2));
    RegroupWhole(TopOf(m) + "\"kept_providers\": ", KeptText(m), Inner(EntriesOf(providers)));
  }

  lemma RegroupWhole(top: string, kept: string, inner: string)
    ensures top + ("[" + kept) + "]" + "\n  }"
            + ("," + "\n  " + ("\"providers\": " + ("{" + (inner + "\n  ") + "}"))) + "\n" + "}" + "\n"
         == top + ("[" + kept) + ("]" + "\n  }," + PROVIDERS + " ") + "{" + inner + ("\n  }" + "\n}\n")
  {
    assert "\n  }," + PROVIDERS + " " == "\n  }" + "," + "\n  " + "\"providers\": ";
    assert "\n  }" + "\n}\n" == "\n  " + "}" + "\n" + "}" + "\n";
  }

  // ---- Where its keys stand -------------------------------------------------------------------

  const META_KEYS: set<string> := {"source", "retrieved_at", "trim", "kept_providers"}

  /** A line break is followed by the metadata's key or by one of its fields' keys. */
  predicate KeyLine(s: string, p: nat)
    requires p < |s|
  {
    s[p] == '\n' ==> OccursAt(s, "\n  \"_", p) || exists name :: name in META_KEYS && OccursAt(s, Needle(name), p)
  }

  predicate KeyLines(s: string) { forall p :: 0 <= p < |s| ==> KeyLine(s, p) }

  lemma KeyLinesJoined(a: string, b: string)
    requires KeyLines(a) && KeyLines(b)
    ensures KeyLines(a + b)
  {
    hide Needle;
    forall p | 0 <= p < |a + b| ensures KeyLine(a + b, p)
    {
      if p < |a| {
        assert KeyLine(a, p);
        Shifted("", a, b, p);
      } else {
        assert KeyLine(b, p - |a|);
        Shifted(a, b, "", p - |a|);
        assert a + b + "" == a + b;
      }
    }
  }

  lemma Shifted(pre: string, mid: string, post: string, p: nat)
    requires p < |mid| && KeyLine(mid, p)
    ensures KeyLine(pre + mid + post, |pre| + p)
  {
    hide Needle;
    var text := pre + mid + post;
    if OccursAt(mid, "\n  \"_", p) {
      OccursInside(pre, mid, post, "\n  \"_", |pre| + p);
    }
    if name :| name in META_KEYS && OccursAt(mid, Needle(name), p) {
      OccursInside(pre, mid, post, Needle(name), |pre| + p);
    }
  }

  lemma KeyLineStart(x: string, rest: string)
    requires L.OneLine(rest) && x != "" && L.OneLine(x[1..])
    requires x == "\n  \"_" || exists name :: name in META_KEYS && x == Needle(name)
    ensures KeyLines(x + rest)
  {
    hide Needle;
    var s := x + rest;
    OccursHere("", x, rest);
    assert "" + x + rest == s;
    forall p | 0 <= p < |s| ensures KeyLine(s, p)
    {
      if p > 0 {
        assert s[p] == (if p < |x| then x[1..][p - 1] else rest[p - |x|]);
      }
    }
  }

  lemma NeedleLine(name: string)
    ensures |Needle(name)| > 1 && L.OneLine(Needle(name)[1..])
  {
    L.QuoteIsOneLine(name);
    hide R.Quote;
    assert Needle(name)[1..] == "    " + R.Quote(name) + ":";
  }

  lemma FieldLineIsKeyLine(name: string, value: string)
    requires name in META_KEYS
    ensures KeyLines(FieldLine(name, value))
  {
    NeedleLine(name);
    L.QuoteIsOneLine(value);
    hide Needle, R.Quote;
    assert L.OneLine(" " + (R.Quote(value) + ","));
    KeyLineStart(Needle(name), " " + (R.Quote(value) + ","));
    assert FieldLine(name, value) == Needle(name) + (" " + (R.Quote(value) + ","));
  }

  lemma MetaIsKeyLines()
    ensures KeyLines("{" + "\n  \"_meta\": {")
  {
    BraceLine();
    KeyLineStart("\n  \"_", "meta\": {");
    assert "\n  \"_" + "meta\": {" == "\n  \"_meta\": {";
    hide KeyLines;
    KeyLinesJoined("{", "\n  \"_meta\": {");
  }

  lemma KeptIsKeyLines()
    ensures KeyLines("\n    " + "\"kept_providers\": ")
  {
    hide R.Quote, KeyLines;
    NeedleLine("kept_providers");
    KeyLineStart(Needle("kept_providers"), " ");
    KeptNeedle();
  }

  lemma KeptNeedle()
    ensures Needle("kept_providers") + " " == "\n    " + "\"kept_providers\": "
  {
    hide R.Quote, R.Body, Slug;
    PlainNames();
  }

  lemma TopIsKeyLines(m: Meta)
    ensures KeyLines(TopOf(m) + "\"kept_providers\": ")
  {
    hide Needle, FieldLine, KeyLines;
    MetaIsKeyLines();
    KeptIsKeyLines();
    FieldLineIsKeyLine("source", m.source);
    FieldLineIsKeyLine("retrieved_at", m.retrievedAt);
    FieldLineIsKeyLine("trim", m.trim);
    var a, b, c := FieldLine("source", m.source), FieldLine("retrieved_at", m.retrievedAt), FieldLine("trim", m.trim);
    var start := "{" + "\n  \"_meta\": {";
    KeyLinesJoined(start, a);
    KeyLinesJoined(start + a, b);
    KeyLinesJoined(start + a + b, c);
    KeyLinesJoined(start + a + b + c, "\n    " + "\"kept_providers\": ");
    Associate(start + a + b + c, "\n    ", "\"kept_providers\": ");
  }

  lemma BraceLine()
    ensures KeyLines("{")
  {
  }

  /** Text whose lines start with those keys holds no other needle, no opener and no key of the providers. */
  lemma KeyLinesFree(s: string, id: string)
    requires KeyLines(s) && id !in META_KEYS
    ensures !Contains(s, Needle(id)) && !Contains(s, OPENER) && !Contains(s, PROVIDERS)
  {
    hide KeyLines, Needle, OccursAt;
    forall p: nat | p <= |s| ensures !OccursAt(s, Needle(id), p) && !OccursAt(s, OPENER, p) && !OccursAt(s, PROVIDERS, p)
    {
      NoNeedleAtKeyLine(s, id, p);
      NoOpenerAtKeyLine(s, p);
      NoProvidersAtKeyLine(s, p);
    }
  }

  /** At a line break, either the metadata's key or a field's key. */
  lemma KeyLineChars(s: string, p: nat)
    requires KeyLines(s) && p < |s| && s[p] == '\n'
    ensures p + 4 < |s|
    ensures (s[p + 3] == '"' && s[p + 4] == '_') || (p + 5 < |s| && s[p + 3] == ' ' && s[p + 5] == '"')
  {
    assert KeyLine(s, p);
    if OccursAt(s, "\n  \"_", p) {
      OccursChar(s, "\n  \"_", p, 3);
      OccursChar(s, "\n  \"_", p, 4);
    } else {
      var name :| name in META_KEYS && OccursAt(s, Needle(name), p);
      NeedleChars(s, name, p);
    }
  }

  lemma NoNeedleAtKeyLine(s: string, id: string, p: nat)
    requires KeyLines(s) && id !in META_KEYS
    ensures !OccursAt(s, Needle(id), p)
  {
    if OccursAt(s, Needle(id), p) {
      NeedleChars(s, id, p);
      assert KeyLine(s, p);
      if OccursAt(s, "\n  \"_", p) {
        OccursChar(s, "\n  \"_", p, 3);
      } else {
        var name :| name in META_KEYS && OccursAt(s, Needle(name), p);
        NeedlesDiffer(s, id, name, p);
      }
    }
  }

  lemma NoOpenerAtKeyLine(s: string, p: nat)
    requires KeyLines(s)
    ensures !OccursAt(s, OPENER, p)
  {
    if OccursAt(s, OPENER, p) {
      OccursChar(s, OPENER, p, 1);
      KeyLineChars(s, p + 1);
      OccursChar(s, OPENER, p, 4);
      OccursChar(s, OPENER, p, 6);
      assert false;
    }
  }

  lemma NoProvidersAtKeyLine(s: string, p: nat)
    requires KeyLines(s)
    ensures !OccursAt(s, PROVIDERS, p)
  {
    if OccursAt(s, PROVIDERS, p) {
      OccursChar(s, PROVIDERS, p, 0);
      KeyLineChars(s, p);
      OccursChar(s, PROVIDERS, p, 3);
      OccursChar(s, PROVIDERS, p, 4);
      assert false;
    }
  }

  lemma NeedleChars(s: string, id: string, p: nat)
    requires OccursAt(s, Needle(id), p)
    ensures p + 5 < |s| && s[p] == '\n' && s[p + 3] == ' ' && s[p + 5] == '"'
  {
    hide R.Body;
    assert |Needle(id)| > 6;
    OccursChar(s, Needle(id), p, 0);
    OccursChar(s, Needle(id), p, 3);
    OccursChar(s, Needle(id), p, 5);
  }

  // ---- The other chunks -----------------------------------------------------------------------

  lemma KeptIsValid(ids: seq<string>)
    ensures L.Valid(KeptJson(ids)) && L.Size(KeptJson(ids)) == |ids|
  {
    var j := KeptJson(ids);
    forall i | 0 <= i < |j.items| ensures L.Valid(j.items[i])
    {
      assert j.items[i] == L.Text(ids[i]);
    }
  }

  lemma KeptFree(m: Meta, id: string)
    ensures var chunk := "[" + KeptText(m);
      !Contains(chunk, Needle(id)) && !Contains(chunk, OPENER) && !Contains(chunk, PROVIDERS)
  {
    var j, n := KeptJson(m.kept), |m.kept|;
    KeptIsValid(m.kept);
    L.PartsAreShaped(j, n, 6);
    Breaks();
    hide L.ShowParts, L.Shaped, Needle, L.Break, OccursAt;
    var parts := L.ShowParts(j, n, 6);
    assert "[" + KeptText(m) == "[" + (parts + "\n    ");
    forall p: nat ensures !OccursAt("[" + (parts + "\n    "), Needle(id), p)
      && !OccursAt("[" + (parts + "\n    "), OPENER, p) && !OccursAt("[" + (parts + "\n    "), PROVIDERS, p)
    {
      NotInList(parts, id, p);
    }
  }

  lemma NotInList(parts: string, id: string, p: nat)
    requires L.Shaped(parts, 6)
    ensures var chunk := "[" + (parts + "\n    ");
      !OccursAt(chunk, Needle(id), p) && !OccursAt(chunk, OPENER, p) && !OccursAt(chunk, PROVIDERS, p)
  {
    NoNeedleInList(parts, id, p);
    NoOpenerInList(parts, p);
    NoProvidersInList(parts, p);
  }

  lemma NoNeedleInList(parts: string, id: string, p: nat)
    requires L.Shaped(parts, 6)
    ensures !OccursAt("[" + (parts + "\n    "), Needle(id), p)
  {
    var s := "[" + (parts + "\n    ");
    if 1 <= p <= |parts| && parts[p - 1] == '\n' {
      SpacesBehind(parts, p - 1);
    }
    if OccursAt(s, Needle(id), p) {
      NeedleChars(s, id, p);
      assert false;
    }
  }

  lemma NoOpenerInList(parts: string, p: nat)
    requires L.Shaped(parts, 6)
    ensures !OccursAt("[" + (parts + "\n    "), OPENER, p)
  {
    var s := "[" + (parts + "\n    ");
    if p < |parts| && parts[p] == '\n' {
      SpacesBehind(parts, p);
    }
    if OccursAt(s, OPENER, p) {
      OccursChar(s, OPENER, p, 0);
      OccursChar(s, OPENER, p, 1);
      OccursChar(s, OPENER, p, 8);
      assert false;
    }
  }

  lemma NoProvidersInList(parts: string, p: nat)
    requires L.Shaped(parts, 6)
    ensures !OccursAt("[" + (parts + "\n    "), PROVIDERS, p)
  {
    var s := "[" + (parts + "\n    ");
    if 1 <= p <= |parts| && parts[p - 1] == '\n' {
      assert L.ShapedAt(parts, 6, p - 1);
    }
    if OccursAt(s, PROVIDERS, p) {
      OccursChar(s, PROVIDERS, p, 0);
      OccursChar(s, PROVIDERS, p, 3);
      assert false;
    }
  }

  /** The text between the list and the providers, and the text behind them. */
  lemma RestFree(id: string)
    ensures !Contains("]" + "\n  }," + PROVIDERS + " ", Needle(id))
    ensures !Contains("]" + "\n  }," + PROVIDERS + " ", OPENER)
    ensures Absent("]" + "\n  }," + PROVIDERS, PROVIDERS, 0, |"]" + "\n  },"|)
    ensures !Contains("\n  }" + "\n}\n", Needle(id))
  {
    var lead, foot := "]" + "\n  }," + PROVIDERS + " ", "\n  }" + "\n}\n";
    forall p: nat ensures !OccursAt(lead, Needle(id), p) && !OccursAt(lead, OPENER, p) && !OccursAt(foot, Needle(id), p)
    {
      NotInLead(id, p);
    }
    forall p | 0 <= p < 6 ensures !OccursAt("]" + "\n  }," + PROVIDERS, PROVIDERS, p)
    {
      if OccursAt("]" + "\n  }," + PROVIDERS, PROVIDERS, p) {
        OccursChar("]" + "\n  }," + PROVIDERS, PROVIDERS, p, 0);
        OccursChar("]" + "\n  }," + PROVIDERS, PROVIDERS, p, 3);
        assert false;
      }
    }
  }

  lemma NotInLead(id: string, p: nat)
    ensures !OccursAt("]" + "\n  }," + PROVIDERS + " ", Needle(id), p)
    ensures !OccursAt("]" + "\n  }," + PROVIDERS + " ", OPENER, p)
    ensures !OccursAt("\n  }" + "\n}\n", Needle(id), p)
  {
    hide Needle;
    var lead, foot := "]" + "\n  }," + PROVIDERS + " ", "\n  }" + "\n}\n";
    if OccursAt(lead, Needle(id), p) {
      NeedleChars(lead, id, p);
      assert false;
    }
    if OccursAt(lead, OPENER, p) {
      OccursChar(lead, OPENER, p, 0);
      assert false;
    }
    if OccursAt(foot, Needle(id), p) {
      NeedleChars(foot, id, p);
      assert false;
    }
  }

  // ---- The list's own key ---------------------------------------------------------------------

  /** A quote inside a JSON string stands behind a backslash. */
  lemma {:induction false} QuotesAreEscaped(v: string, k: nat)
    requires k < |R.Body(v)| && R.Body(v)[k] == '"'
    ensures k > 0 && R.Body(v)[k - 1] == '\\'
  {
    var e := R.Escape(v[0]);
    if k < |e| {
      EscapedQuote(v[0], k);
    } else {
      QuotesAreEscaped(v[1..], k - |e|);
      hide R.Escape;
    }
  }

  lemma EscapedQuote(c: char, k: nat)
    requires k < |R.Escape(c)| && R.Escape(c)[k] == '"'
    ensures k > 0 && R.Escape(c)[k - 1] == '\\'
  {
    EscapeShape(c);
    hide R.Escape;
    EscapeKinds(c);
  }

  lemma EscapeKinds(c: char)
    ensures |R.Escape(c)| == 6 ==> R.Escape(c)[0] == '\\' && R.Escape(c)[1] == 'u'
  {
  }

  /** The quote that ends the list's key has an `s` before it, and a colon and a bracket behind it. */
  predicate EndsKey(s: string, q: nat) {
    1 <= q && q + 3 < |s| && s[q] == '"' && s[q - 1] == 's' && s[q + 1] == ':' && s[q + 3] == '['
  }

  lemma KeptOpenEnds(s: string, p: nat)
    requires OccursAt(s, KEPT_OPEN, p)
    ensures EndsKey(s, p + 15)
  {
    OccursChar(s, KEPT_OPEN, p, 14);
    OccursChar(s, KEPT_OPEN, p, 15);
    OccursChar(s, KEPT_OPEN, p, 16);
    OccursChar(s, KEPT_OPEN, p, 18);
  }

  predicate FieldShape(s: string, name: string, body: string) { s == "\n    \"" + name + "\": \"" + body + "\"," }

  /** No quote of a metadata line ends the key of the list. */
  lemma NoKeyInField(s: string, name: string, value: string, q: nat)
    requires FieldShape(s, name, R.Body(value)) && name != "" && forall i :: 0 <= i < |name| ==> Letter(name[i])
    ensures !EndsKey(s, q)
  {
    hide R.Body;
    var body := R.Body(value);
    var open := |name| + 9;
    assert s[open] == '"' && s[open - 1] == ' ' && s[open - 3] == '"';
    if open < q <= open + |body| {
      assert s[q] == body[q - open - 1];
      if s[q] == '"' {
        QuotesAreEscaped(value, q - open - 1);
        assert s[q - 1] == body[q - open - 2];
      }
    } else if 6 <= q < 6 + |name| {
      assert s[q] == name[q - 6];
    }
  }

  lemma FieldLineShape(name: string, value: string)
    requires forall i :: 0 <= i < |name| ==> Letter(name[i])
    ensures FieldShape(FieldLine(name, value), name, R.Body(value))
  {
    PlainName(name);
    QuoteIs(value);
    hide R.Body, R.Quote, Slug;
    RegroupField(name, R.Body(value));
  }

  lemma QuoteIs(value: string)
    ensures R.Quote(value) == "\"" + R.Body(value) + "\""
  {
  }

  lemma RegroupField(name: string, body: string)
    ensures "\n    " + ("\"" + name + "\"") + ":" + " " + (("\"" + body + "\"") + ",")
         == "\n    \"" + name + "\": \"" + body + "\","
  {
  }

  lemma NoListKeyInField(name: string, value: string)
    requires name != "" && forall i :: 0 <= i < |name| ==> Letter(name[i])
    ensures !Contains(FieldLine(name, value), KEPT_OPEN)
    ensures FieldLine(name, value) != "" && FieldLine(name, value)[0] == '\n'
  {
    FieldLineShape(name, value);
    var s := FieldLine(name, value);
    forall p: nat ensures !OccursAt(s, KEPT_OPEN, p)
    {
      if OccursAt(s, KEPT_OPEN, p) {
        KeptOpenEnds(s, p);
        NoKeyInField(s, name, value, p + 15);
        assert false;
      }
    }
  }

  lemma KeptOpenSeam(chunk: string)
    ensures Seam(KEPT_OPEN, chunk, '\n')
  {
  }

  lemma NoListKeyInMeta()
    ensures !Contains("{" + "\n  \"_meta\": {", KEPT_OPEN)
  {
    var s := "{" + "\n  \"_meta\": {";
    assert |KEPT_OPEN| > |s|;
  }

  lemma ListKeyIsFirst(m: Meta)
    ensures Absent(TopOf(m) + KEPT_OPEN, KEPT_OPEN, 0, |TopOf(m)|)
  {
    hide FieldLine, Contains, Seam, Absent, R.Quote;
    NoListKeyInMeta();
    NoListKeyInField("source", m.source);
    NoListKeyInField("retrieved_at", m.retrievedAt);
    NoListKeyInField("trim", m.trim);
    var a, b, c := FieldLine("source", m.source), FieldLine("retrieved_at", m.retrievedAt), FieldLine("trim", m.trim);
    ListKeyAfter("{" + "\n  \"_meta\": {", a, b, c);
  }

  /** One more line without the list's key in front of it. */
  lemma ListKeyLater(pre: string, line: string, rest: string)
    requires Absent(pre + (line + rest), KEPT_OPEN, 0, |pre|)
    requires !Contains(line, KEPT_OPEN) && rest != "" && rest[0] == '\n'
    ensures Absent((pre + line) + rest, KEPT_OPEN, 0, |pre + line|)
  {
    KeptOpenSeam(line);
    hide Contains, Seam, OccursAt;
    Associate(pre, line, rest);
    ChunkAbsent(pre, line, rest, KEPT_OPEN);
  }

  lemma ListKeyAfter(start: string, a: string, b: string, c: string)
    requires !Contains(start, KEPT_OPEN) && !Contains(a, KEPT_OPEN) && !Contains(b, KEPT_OPEN) && !Contains(c, KEPT_OPEN)
    requires a != "" && b != "" && c != "" && a[0] == b[0] == c[0] == '\n'
    ensures Absent(start + a + b + c + "\n    " + KEPT_OPEN, KEPT_OPEN, 0, |start + a + b + c + "\n    "|)
  {
    hide Contains;
    var last := "\n    " + KEPT_OPEN;
    assert "" + start == start && "" + (start + (a + (b + (c + last)))) == start + (a + (b + (c + last)));
    ListKeyLater("", start, a + (b + (c + last)));
    ListKeyLater(start, a, b + (c + last));
    ListKeyLater(start + a, b, c + last);
    ListKeyLater(start + a + b, c, last);
    ListKeyLast(start + a + b + c);
  }

  lemma ListKeyLast(pre: string)
    requires Absent(pre + ("\n    " + KEPT_OPEN), KEPT_OPEN, 0, |pre|)
    ensures Absent(pre + "\n    " + KEPT_OPEN, KEPT_OPEN, 0, |pre + "\n    "|)
  {
    hide OccursAt;
    Associate(pre, "\n    ", KEPT_OPEN);
    var text := pre + "\n    " + KEPT_OPEN;
    NoStart(text, KEPT_OPEN, |pre|, |pre| + 5);
    AbsentJoined(text, KEPT_OPEN, 0, |pre|, |pre| + 5);
  }

  /** A list of slugs has no closing bracket of its own. */
  predicate NoClose(s: string) { forall i :: 0 <= i < |s| ==> s[i] != ']' }

  lemma SlugHasNoClose(id: string)
    requires Slug(id)
    ensures NoClose(R.Quote(id))
  {
    SlugBody(id);
    forall i | 0 <= i < |id| ensures id[i] != ']'
    {
      SlugChars(id, i);
    }
  }

  lemma KeptPart(ids: seq<string>, i: nat)
    requires i < |ids|
    ensures i < L.Size(KeptJson(ids)) && L.ShowPart(KeptJson(ids), i, 6) == R.Quote(ids[i])
  {
    hide R.Quote, L.Show;
    L.ShowCases(L.Text(ids[i]), 6);
  }

  lemma AppendHasNoClose(before: string, first: bool, part: string)
    requires NoClose(before) && NoClose(part)
    ensures NoClose(L.Append(before, first, 6, part))
  {
    assert NoClose(L.Break(6));
  }

  lemma {:induction false} ListHasNoClose(ids: seq<string>, k: nat)
    requires k <= |ids| && forall id :: id in ids ==> Slug(id)
    ensures k <= L.Size(KeptJson(ids)) && NoClose(L.ShowParts(KeptJson(ids), k, 6))
  {
    hide R.Quote, L.ShowParts, L.ShowPart, L.Append, Slug, NoClose;
    var j := KeptJson(ids);
    assert L.Size(j) == |ids|;
    L.PartsCases(j, k, 6);
    if k == 0 {
      EmptyHasNoClose();
    } else {
      ListHasNoClose(ids, k - 1);
      KeptPart(ids, k - 1);
      assert ids[k - 1] in ids;
      SlugHasNoClose(ids[k - 1]);
      AppendHasNoClose(L.ShowParts(j, k - 1, 6), k == 1, L.ShowPart(j, k - 1, 6));
    }
  }

  lemma EmptyHasNoClose()
    ensures NoClose("")
  {
  }

  lemma KeptHasNoClose(m: Meta)
    requires forall id :: id in m.kept ==> Slug(id)
    ensures !Contains(KeptText(m), "]")
  {
    ListHasNoClose(m.kept, |m.kept|);
    hide L.ShowParts, Slug;
    var s := KeptText(m);
    assert NoClose(L.Break(4)) && NoClose(s);
    forall p: nat ensures !OccursAt(s, "]", p)
    {
      if OccursAt(s, "]", p) {
        OccursChar(s, "]", p, 0);
        assert false;
      }
    }
  }

  // ---- Ready ----------------------------------------------------------------------------------

  /** An id the generator keeps: a slug that is not one of the metadata's own keys. */
  predicate CatalogId(id: string) { Slug(id) && id !in META_KEYS }

  /** The providers of a full run: different ids, each with a bucket. */
  predicate Providers(fields: seq<L.Field>) {
    && fields != []
    && (forall i :: 0 <= i < |fields| ==> CatalogId(fields[i].name) && Bucket(fields[i].value))
    && (forall i, j :: 0 <= i < j < |fields| ==> fields[i].name != fields[j].name)
  }

  lemma ChunksAreFree(m: Meta, providers: seq<L.Field>, id: string)
    requires id !in META_KEYS
    ensures Free(SnapshotOf(m, providers), Needle(id)) && Free(SnapshotOf(m, providers), OPENER)
    ensures ProvidersFirst(SnapshotOf(m, providers)) && !Contains(Foot(SnapshotOf(m, providers)), Needle(id))
  {
    TopIsKeyLines(m);
    hide TopOf, KeptText, KeyLines, Contains, Absent, Needle, EntriesOf;
    KeyLinesFree(TopOf(m) + "\"kept_providers\": ", id);
    KeptFree(m, id);
    RestFree(id);
  }

  lemma EntryOfProvider(m: Meta, providers: seq<L.Field>, i: nat)
    requires Providers(providers) && i < |providers|
    ensures EntryShaped(SnapshotOf(m, providers), EntriesOf(providers)[i])
  {
    hide L.Show, BucketShaped, Free, Slug, TopOf, KeptText;
    var f := providers[i];
    assert CatalogId(f.name) && Bucket(f.value);
    L.IndentedLayout(f.value, 0, 4);
    RenderedIsShaped(f.value);
    ChunksAreFree(m, providers, f.name);
  }

  /** What a full run writes is the text of a snapshot into which any catalog id can be spliced. */
  lemma GeneratedIsReady(m: Meta, providers: seq<L.Field>, id: string)
    requires m.kept != [] && (forall k :: k in m.kept ==> Slug(k))
    requires Providers(providers) && CatalogId(id)
    ensures Ready(SnapshotOf(m, providers), id)
    ensures Generated(m, providers) == Text(SnapshotOf(m, providers))
  {
    hide L.Show, BucketShaped, Free, Slug, TopOf, KeptText, Contains, Absent, EntryShaped, ProvidersFirst, Generated, Text, Foot;
    var s, es := SnapshotOf(m, providers), EntriesOf(providers);
    GeneratedIsText(m, providers);
    ChunksAreFree(m, providers, id);
    ListKeyIsFirst(m);
    KeptHasNoClose(m);
    forall e | e in es ensures EntryShaped(s, e)
    {
      var i :| 0 <= i < |es| && es[i] == e;
      EntryOfProvider(m, providers, i);
    }
  }
}
