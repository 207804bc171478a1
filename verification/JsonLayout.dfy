/**
 * JSON text as a two-space pretty printer lays it out: indentation applied afterwards to every line
 * is the layout of a deeper level, braces are balanced, and where the quotes of keys can stand.
 */
module JsonLayout {
  import opened JsonBraces
  import R = RelationKey

  /** `Literal` is a number, a boolean or null, by its text. */
  datatype Json =
    | Literal(text: string)
    | Text(value: string)
    | List(items: seq<Json>)
    | Object(fields: seq<Field>)

  datatype Field = Field(name: string, value: Json)

  /** A number, `true`, `false` and `null` have no quote, brace or line break in them. */
  predicate LiteralText(s: string) { Plain(s) && OneLine(s) }

  predicate OneLine(s: string) { forall i :: 0 <= i < |s| ==> s[i] != '\n' }

  predicate Valid(j: Json) {
    match j
    case Literal(text) => LiteralText(text)
    case Text(_) => true
    case List(items) => forall i :: 0 <= i < |items| ==> Valid(items[i])
    case Object(fields) => forall i :: 0 <= i < |fields| ==> Valid(fields[i].value)
  }

  function Pad(n: nat): (s: string)
    ensures |s| == n && forall i :: 0 <= i < n ==> s[i] == ' '
  {
    if n == 0 then "" else " " + Pad(n - 1)
  }

  function Break(n: nat): string { "\n" + Pad(n) }

  /** The number of items of a list, or of fields of an object. */
  function Size(j: Json): nat {
    match j
    case List(items) => |items|
    case Object(fields) => |fields|
    case _ => 0
  }

  function Opening(j: Json): string { if j.List? then "[" else "{" }

  function Closing(j: Json): string { if j.List? then "]" else "}" }

  /** The layout at indentation `n`. */
  function Show(j: Json, n: nat): string
    decreases j, 2
  {
    if j.Literal? then j.text
    else if j.Text? then R.Quote(j.value)
    else if Size(j) == 0 then Opening(j) + Closing(j)
    else Enclose(Opening(j), ShowParts(j, Size(j), n + 2), n, Closing(j))
  }

  function Enclose(open: string, parts: string, n: nat, close: string): string {
    open + (parts + Break(n)) + close
  }

  /** The first `k` items or fields, each on a line of its own. */
  function ShowParts(j: Json, k: nat, n: nat): string
    requires k <= Size(j)
    decreases j, 1, k
  {
    if k == 0 then "" else Append(ShowParts(j, k - 1, n), k == 1, n, ShowPart(j, k - 1, n))
  }

  function Append(before: string, first: bool, n: nat, part: string): string {
    before + ((if first then "" else ",") + Break(n) + part)
  }

  function ShowPart(j: Json, i: nat, n: nat): string
    requires i < Size(j)
    decreases j, 0
  {
    if j.List? then Show(j.items[i], n) else Member(j.fields[i].name, Show(j.fields[i].value, n))
  }

  function Member(name: string, value: string): string { R.Quote(name) + ": " + value }

  lemma ShowCases(j: Json, n: nat)
    ensures j.Literal? ==> Show(j, n) == j.text
    ensures j.Text? ==> Show(j, n) == R.Quote(j.value)
    ensures j.List? && Size(j) == 0 ==> Show(j, n) == "[]"
    ensures j.Object? && Size(j) == 0 ==> Show(j, n) == "{}"
    ensures Size(j) > 0 ==> Show(j, n) == Enclose(Opening(j), ShowParts(j, Size(j), n + 2), n, Closing(j))
  {
    hide Enclose, ShowParts;
    assert j.List? && Size(j) == 0 ==> Opening(j) + Closing(j) == "[]";
    assert j.Object? && Size(j) == 0 ==> Opening(j) + Closing(j) == "{}";
  }

  lemma PartsCases(j: Json, k: nat, n: nat)
    requires k <= Size(j)
    ensures ShowParts(j, k, n) == if k == 0 then "" else Append(ShowParts(j, k - 1, n), k == 1, n, ShowPart(j, k - 1, n))
  {
    hide Append, ShowPart;
  }

  // ---- Indenting all lines but the first ------------------------------------------------------

  /** Every line after the first, moved right by `m`. */
  function Indent(s: string, m: nat): string {
    if s == "" then "" else Indent(s[..|s| - 1], m) + [s[|s| - 1]] + (if s[|s| - 1] == '\n' then Pad(m) else "")
  }

  lemma {:induction false} IndentConcat(s: string, t: string, m: nat)
    ensures Indent(s + t, m) == Indent(s, m) + Indent(t, m)
    decreases |t|
  {
    if t == "" {
      assert s + t == s;
    } else {
      IndentConcat(s, t[..|t| - 1], m);
      assert (s + t)[..|s + t| - 1] == s + t[..|t| - 1];
    }
  }

  lemma {:induction false} IndentOneLine(s: string, m: nat)
    requires OneLine(s)
    ensures Indent(s, m) == s
    decreases |s|
  {
    if s != "" {
      IndentOneLine(s[..|s| - 1], m);
      assert s == s[..|s| - 1] + [s[|s| - 1]];
    }
  }

  lemma IndentBreak(n: nat, m: nat)
    ensures Indent(Break(n), m) == Break(n + m)
  {
    IndentConcat("\n", Pad(n), m);
    IndentOneLine(Pad(n), m);
    assert Indent("\n", m) == Indent("", m) + ['\n'] + Pad(m);
    assert "\n" + Pad(m) + Pad(n) == "\n" + Pad(n + m);
  }

  lemma {:induction false} BodyIsOneLine(s: string)
    ensures OneLine(R.Body(s))
  {
    if s != "" {
      EscapeIsOneLine(s[0]);
      BodyIsOneLine(s[1..]);
      hide R.Escape;
    }
  }

  lemma EscapeIsOneLine(c: char)
    ensures OneLine(R.Escape(c))
  {
    if c as int < 32 {
      assert R.HEX[c as int / 16] != '\n' && R.HEX[c as int % 16] != '\n' by {
        HexIsOneLine(c as int / 16);
        HexIsOneLine(c as int % 16);
      }
    }
  }

  lemma HexIsOneLine(i: nat)
    requires i < 16
    ensures R.HEX[i] != '\n'
  {
  }

  lemma QuoteIsOneLine(s: string)
    ensures OneLine(R.Quote(s))
  {
    BodyIsOneLine(s);
  }

  lemma IndentEnclose(open: string, parts: string, n: nat, close: string, m: nat)
    requires OneLine(open) && OneLine(close)
    ensures Indent(Enclose(open, parts, n, close), m) == Enclose(open, Indent(parts, m), n + m, close)
  {
    hide Indent, Break;
    IndentConcat(open + (parts + Break(n)), close, m);
    IndentConcat(open, parts + Break(n), m);
    IndentConcat(parts, Break(n), m);
    IndentOneLine(open, m);
    IndentOneLine(close, m);
    IndentBreak(n, m);
  }

  lemma IndentAppend(before: string, first: bool, n: nat, part: string, m: nat)
    ensures Indent(Append(before, first, n, part), m) == Append(Indent(before, m), first, n + m, Indent(part, m))
  {
    hide Indent, Break;
    var comma := if first then "" else ",";
    IndentConcat(before, comma + Break(n) + part, m);
    IndentConcat(comma + Break(n), part, m);
    IndentConcat(comma, Break(n), m);
    IndentOneLine(comma, m);
    IndentBreak(n, m);
  }

  lemma IndentMember(name: string, value: string, m: nat)
    ensures Indent(Member(name, value), m) == Member(name, Indent(value, m))
  {
    QuoteIsOneLine(name);
    hide Indent, R.Quote;
    IndentConcat(R.Quote(name) + ": ", value, m);
    IndentOneLine(R.Quote(name) + ": ", m);
  }

  /** Indenting the lines of a layout gives the layout of the deeper level. */
  lemma {:induction false} IndentedLayout(j: Json, n: nat, m: nat)
    requires Valid(j)
    ensures Indent(Show(j, n), m) == Show(j, n + m)
    decreases j, 2
  {
    hide Indent, Enclose, Show, ShowParts, R.Quote;
    ShowCases(j, n);
    ShowCases(j, n + m);
    if j.Literal? {
      IndentOneLine(j.text, m);
    } else if j.Text? {
      QuoteIsOneLine(j.value);
      IndentOneLine(R.Quote(j.value), m);
    } else if Size(j) == 0 {
      IndentOneLine(Show(j, n), m);
    } else {
      IndentedParts(j, Size(j), n + 2, m);
      IndentEnclose(Opening(j), ShowParts(j, Size(j), n + 2), n, Closing(j), m);
    }
  }

  lemma {:induction false} IndentedParts(j: Json, k: nat, n: nat, m: nat)
    requires Valid(j) && k <= Size(j)
    ensures Indent(ShowParts(j, k, n), m) == ShowParts(j, k, n + m)
    decreases j, 1, k
  {
    hide Indent, Append, ShowParts, ShowPart, Valid, Size;
    PartsCases(j, k, n);
    PartsCases(j, k, n + m);
    if k == 0 {
      IndentOneLine("", m);
    } else {
      IndentedParts(j, k - 1, n, m);
      IndentedPart(j, k - 1, n, m);
      IndentAppend(ShowParts(j, k - 1, n), k == 1, n, ShowPart(j, k - 1, n), m);
    }
  }

  lemma {:induction false} IndentedPart(j: Json, i: nat, n: nat, m: nat)
    requires Valid(j) && i < Size(j)
    ensures Indent(ShowPart(j, i, n), m) == ShowPart(j, i, n + m)
    decreases j, 0
  {
    hide Indent, Show, Member;
    if j.List? {
      IndentedLayout(j.items[i], n, m);
    } else {
      IndentedLayout(j.fields[i].value, n, m);
      IndentMember(j.fields[i].name, Show(j.fields[i].value, n), m);
    }
  }

  // ---- Braces ---------------------------------------------------------------------------------

  lemma AtomIsNeutral(j: Json, n: nat)
    requires Valid(j) && Size(j) == 0
    ensures Neutral(Show(j, n))
    ensures j.Object? ==> forall pre, post :: Delimits(pre, Show(j, n), post)
  {
    ShowCases(j, n);
    hide Neutral, Delimits, Show;
    if j.Literal? {
      NeutralPlain(j.text);
    } else if j.Text? {
      NeutralQuote(j.value);
    } else if j.List? {
      NeutralPlain("[]");
    } else {
      NeutralPlain("");
      NeutralBraces("");
      assert "{" + "" + "}" == "{}";
    }
  }

  /** A layout leaves the brace depth as it finds it, and an object is what the brace matcher delimits. */
  lemma {:induction false} LayoutIsNeutral(j: Json, n: nat)
    requires Valid(j)
    ensures Neutral(Show(j, n))
    ensures j.Object? ==> forall pre, post :: Delimits(pre, Show(j, n), post)
    decreases j, 2
  {
    hide Neutral, Delimits, Enclose, Show, ShowParts, Size, Valid;
    if Size(j) == 0 {
      AtomIsNeutral(j, n);
    } else {
      ShowCases(j, n);
      PartsAreNeutral(j, Size(j), n + 2);
      NeutralEnclose(j, ShowParts(j, Size(j), n + 2), n);
    }
  }

  lemma NeutralEnclose(j: Json, parts: string, n: nat)
    requires Neutral(parts)
    ensures Neutral(Enclose(Opening(j), parts, n, Closing(j)))
    ensures j.Object? ==> forall pre, post :: Delimits(pre, Enclose(Opening(j), parts, n, Closing(j)), post)
  {
    NeutralPlain(Break(n));
    NeutralConcat(parts, Break(n));
    hide Neutral, Break;
    if j.List? {
      NeutralPlain("[");
      NeutralPlain("]");
      NeutralConcat("[", parts + Break(n));
      NeutralConcat("[" + (parts + Break(n)), "]");
    } else {
      NeutralBraces(parts + Break(n));
    }
  }

  lemma {:induction false} PartsAreNeutral(j: Json, k: nat, n: nat)
    requires Valid(j) && k <= Size(j)
    ensures Neutral(ShowParts(j, k, n))
    decreases j, 1, k
  {
    hide Neutral, Append, ShowParts, ShowPart, Valid, Size;
    PartsCases(j, k, n);
    if k == 0 {
      NeutralPlain("");
    } else {
      PartsAreNeutral(j, k - 1, n);
      PartIsNeutral(j, k - 1, n);
      NeutralAppend(ShowParts(j, k - 1, n), k == 1, n, ShowPart(j, k - 1, n));
    }
  }

  lemma {:induction false} PartIsNeutral(j: Json, i: nat, n: nat)
    requires Valid(j) && i < Size(j)
    ensures Neutral(ShowPart(j, i, n))
    decreases j, 0
  {
    hide Neutral, Show, Member;
    if j.List? {
      LayoutIsNeutral(j.items[i], n);
    } else {
      LayoutIsNeutral(j.fields[i].value, n);
      NeutralMember(j.fields[i].name, Show(j.fields[i].value, n));
    }
  }

  lemma NeutralMember(name: string, value: string)
    requires Neutral(value)
    ensures Neutral(Member(name, value))
  {
    NeutralPlain(": ");
    hide Neutral, R.Quote;
    NeutralQuote(name);
    NeutralConcat(R.Quote(name), ": ");
    NeutralConcat(R.Quote(name) + ": ", value);
  }

  lemma NeutralAppend(before: string, first: bool, n: nat, part: string)
    requires Neutral(before) && Neutral(part)
    ensures Neutral(Append(before, first, n, part))
  {
    var comma := if first then "" else ",";
    NeutralPlain(comma + Break(n));
    hide Neutral, Break;
    NeutralConcat(comma + Break(n), part);
    NeutralConcat(before, comma + Break(n) + part);
  }

  // ---- Where lines break ----------------------------------------------------------------------

  predicate SpacesAfter(s: string, p: nat, k: nat) {
    p + k < |s| && forall q :: p < q <= p + k ==> s[q] == ' '
  }

  /** Every line but the first is indented by `m`, a line after an opening brace by two more. */
  ghost predicate Shaped(s: string, m: nat) {
    && (forall p :: 0 <= p < |s| ==> ShapedAt(s, m, p))
    && (s == "" || s[|s| - 1] != '{')
  }

  predicate ShapedAt(s: string, m: nat, p: nat)
    requires p < |s|
  {
    s[p] == '\n' ==> SpacesAfter(s, p, if p > 0 && s[p - 1] == '{' then m + 2 else m)
  }

  lemma ShapedConcat(s: string, t: string, m: nat)
    requires Shaped(s, m) && Shaped(t, m)
    ensures Shaped(s + t, m)
  {
    forall p | 0 <= p < |s + t| ensures ShapedAt(s + t, m, p)
    {
      if p < |s| {
        assert ShapedAt(s, m, p);
      } else {
        assert ShapedAt(t, m, p - |s|);
      }
    }
  }

  lemma ShapedOneLine(s: string, m: nat)
    requires OneLine(s) && (s == "" || s[|s| - 1] != '{')
    ensures Shaped(s, m)
  {
  }

  /** A line break at indentation `n` and the text behind it. */
  lemma ShapedBreak(n: nat, s: string, m: nat)
    requires m <= n && Shaped(s, m)
    ensures Shaped(Break(n) + s, m)
  {
    var t := Break(n);
    forall p | 0 <= p < |t| ensures ShapedAt(t, m, p)
    {
      assert p > 0 ==> t[p] == ' ';
      assert p == 0 && m <= n ==> |t| == n + 1 && forall q :: 0 < q <= m ==> t[q] == ' ';
    }
    assert |t| == n + 1 && t[|t| - 1] != '{';
    ShapedConcat(t, s, m);
  }

  lemma ShapedLess(s: string, m: nat, n: nat)
    requires Shaped(s, n) && m <= n
    ensures Shaped(s, m)
  {
    forall p | 0 <= p < |s| ensures ShapedAt(s, m, p)
    {
      assert ShapedAt(s, n, p);
    }
  }

  lemma ShapedEnclose(j: Json, parts: string, m: nat)
    requires parts != "" && Shaped(parts, m + 2)
    ensures Shaped(Enclose(Opening(j), parts, m, Closing(j)), m)
  {
    var inner, last := parts + Break(m), Closing(j);
    ShapedOneLine(last, m);
    ShapedBreak(m, last, m);
    ShapedLess(parts, m, m + 2);
    ShapedConcat(parts, Break(m) + last, m);
    var rest, s := parts + (Break(m) + last), Enclose(Opening(j), parts, m, Closing(j));
    assert s == Opening(j) + rest;
    forall p | 0 <= p < |s| ensures ShapedAt(s, m, p)
    {
      if p > 0 {
        assert ShapedAt(rest, m, p - 1);
        if p == 1 {
          assert ShapedAt(parts, m + 2, 0);
          assert forall q :: 0 < q < |parts| ==> s[q + 1] == parts[q];
        }
      }
    }
  }

  lemma ShapedAppend(before: string, first: bool, m: nat, part: string)
    requires Shaped(before, m) && Shaped(part, m)
    ensures Shaped(Append(before, first, m, part), m)
  {
    var comma := if first then "" else ",";
    ShapedOneLine(comma, m);
    ShapedBreak(m, part, m);
    hide Shaped, Break;
    ShapedConcat(comma, Break(m) + part, m);
    assert comma + Break(m) + part == comma + (Break(m) + part);
    ShapedConcat(before, comma + Break(m) + part, m);
  }

  lemma ShapedQuote(s: string, m: nat)
    ensures Shaped(R.Quote(s), m)
  {
    QuoteIsOneLine(s);
  }

  lemma ShapedMember(name: string, value: string, m: nat)
    requires Shaped(value, m)
    ensures Shaped(Member(name, value), m)
  {
    ShapedQuote(name, m);
    ShapedOneLine(": ", m);
    hide Shaped, R.Quote;
    ShapedConcat(R.Quote(name), ": ", m);
    ShapedConcat(R.Quote(name) + ": ", value, m);
  }

  lemma LiteralIsShaped(s: string, m: nat)
    requires LiteralText(s)
    ensures Shaped(s, m)
  {
    assert s != "" ==> s[|s| - 1] != '{';
    ShapedOneLine(s, m);
  }

  lemma AtomIsShaped(j: Json, m: nat)
    requires Valid(j) && Size(j) == 0
    ensures Shaped(Show(j, m), m)
  {
    ShowCases(j, m);
    hide Show;
    if j.Literal? {
      LiteralIsShaped(j.text, m);
    } else if j.Text? {
      ShapedQuote(j.value, m);
    } else {
      ShapedOneLine(Show(j, m), m);
    }
  }

  /** A layout at indentation `m` keeps its inner lines at least that deep. */
  lemma {:induction false} LayoutIsShaped(j: Json, m: nat)
    requires Valid(j)
    ensures Shaped(Show(j, m), m)
    decreases j, 2
  {
    hide Shaped, Enclose, Show, ShowParts, Valid, Size;
    if Size(j) == 0 {
      AtomIsShaped(j, m);
    } else {
      ShowCases(j, m);
      PartsCases(j, Size(j), m + 2);
      PartsAreShaped(j, Size(j), m + 2);
      ShapedEnclose(j, ShowParts(j, Size(j), m + 2), m);
    }
  }

  lemma {:induction false} PartsAreShaped(j: Json, k: nat, m: nat)
    requires Valid(j) && k <= Size(j)
    ensures Shaped(ShowParts(j, k, m), m)
    decreases j, 1, k
  {
    PartsCases(j, k, m);
    if k == 0 {
      ShapedOneLine("", m);
    } else {
      hide Shaped, Append, ShowParts, ShowPart, Valid, Size;
      PartsAreShaped(j, k - 1, m);
      PartIsShaped(j, k - 1, m);
      ShapedAppend(ShowParts(j, k - 1, m), k == 1, m, ShowPart(j, k - 1, m));
    }
  }

  lemma {:induction false} PartIsShaped(j: Json, i: nat, m: nat)
    requires Valid(j) && i < Size(j)
    ensures Shaped(ShowPart(j, i, m), m)
    decreases j, 0
  {
    hide Shaped, Show, Member;
    if j.List? {
      LayoutIsShaped(j.items[i], m);
    } else {
      LayoutIsShaped(j.fields[i].value, m);
      ShapedMember(j.fields[i].name, Show(j.fields[i].value, m), m);
    }
  }
}
