/**
 * The brace matcher over JSON text, and the two-space renderer whose objects it delimits.
 */
module JsonBraces {
  import R = RelationKey

  /** Where a scan is: outside strings, inside one, or behind a backslash inside one. */
  datatype Mode = Code | Str | Escaped

  datatype Lex = Lex(depth: int, mode: Mode)

  const START := Lex(0, Code)

  function Step(l: Lex, c: char): Lex {
    match l.mode
    case Escaped => Lex(l.depth, Str)
    case Str =>
      if c == '\\' then Lex(l.depth, Escaped)
      else if c == '"' then Lex(l.depth, Code)
      else l
    case Code =>
      if c == '"' then Lex(l.depth, Str)
      else if c == '{' then Lex(l.depth + 1, Code)
      else if c == '}' then Lex(l.depth - 1, Code)
      else l
  }

  /** The state after a whole text. */
  function Run(l: Lex, s: string): Lex
    decreases |s|
  {
    if s == "" then l else Step(Run(l, s[..|s| - 1]), s[|s| - 1])
  }

  lemma RunOne(l: Lex, s: string, c: char)
    ensures Run(l, s + [c]) == Step(Run(l, s), c)
  {
    assert (s + [c])[..|s|] == s;
  }

  lemma {:induction false} RunConcat(l: Lex, s: string, t: string)
    ensures Run(l, s + t) == Run(Run(l, s), t)
    decreases |t|
  {
    if t == "" {
      assert s + t == s;
    } else {
      var init, c := t[..|t| - 1], t[|t| - 1];
      RunConcat(l, s, init);
      assert s + t == (s + init) + [c] && t == init + [c];
      RunOne(l, s + init, c);
      RunOne(Run(l, s), init, c);
    }
  }

  /** The character at `c` closes a brace, outside strings, that brings the depth from `open` on to zero. */
  predicate Returns(text: string, open: nat, c: nat) {
    && open <= c < |text|
    && Run(START, text[open..c]) == Lex(1, Code)
    && text[c] == '}'
  }

  /** `c` is where the depth first returns to zero. */
  predicate ClosesAt(text: string, open: nat, c: nat) {
    Returns(text, open, c) && forall k :: open <= k < c ==> !Returns(text, open, k)
  }

  /** From `open`, or from the start of the text when the search for an opening brace found none. */
  function Origin(open: int): nat { if open < 0 then 0 else open }

  /** The first place from `i` on where the depth returns to zero, or -1. */
  function BraceEnd(text: string, open: nat, i: nat): (close: int)
    requires open <= i
    ensures close == -1 <==> forall c :: i <= c < |text| ==> !Returns(text, open, c)
    ensures close != -1 ==> i <= close && Returns(text, open, close) && forall c :: i <= c < close ==> !Returns(text, open, c)
    decreases |text| - i
  {
    if i >= |text| then -1 else if Returns(text, open, i) then i else BraceEnd(text, open, i + 1)
  }

  /** The text before `index` has been read, ending in `l`, and the depth has not returned to zero in it. */
  ghost predicate Scanned(text: string, start: nat, index: nat, l: Lex) {
    && (start <= index <= |text| ==> Run(START, text[start..index]) == l)
    && forall k :: start <= k < index ==> !Returns(text, start, k)
  }

  lemma ScanStarts(text: string, start: nat)
    ensures Scanned(text, start, start, START)
  {
  }

  lemma ScanOne(text: string, start: nat, index: nat, l: Lex)
    requires start <= index < |text| && Scanned(text, start, index, l)
    ensures
      if text[index] == '}' && l == Lex(1, Code) then ClosesAt(text, start, index)
      else Scanned(text, start, index + 1, Step(l, text[index]))
  {
    hide Step;
    assert text[start..index + 1] == text[start..index] + [text[index]];
    RunOne(START, text[start..index], text[index]);
  }

  /** An escape is skipped with the character behind it, or reads past the end. */
  lemma ScanEscaped(text: string, start: nat, index: nat, depth: int)
    requires start <= index && Scanned(text, start, index, Lex(depth, Escaped))
    ensures Scanned(text, start, index + 1, Lex(depth, Str))
  {
    if index < |text| { ScanOne(text, start, index, Lex(depth, Escaped)); }
  }

  lemma ScanEnds(text: string, start: nat, index: nat, l: Lex)
    requires Scanned(text, start, index, l) && |text| <= index
    ensures BraceEnd(text, start, start) == -1 && forall c: nat :: !ClosesAt(text, start, c)
  {
  }

  method MatchingBrace(text: string, open: int) returns (close: int)
    requires -1 <= open
    ensures close == BraceEnd(text, Origin(open), Origin(open))
    ensures open >= 0 ==> (close == -1 <==> forall c: nat :: !ClosesAt(text, open, c))
    ensures open < 0 ==> (close == -1 <==> forall c: nat :: !ClosesAt(text, 0, c))
    ensures close != -1 ==> 0 <= close && ClosesAt(text, if open < 0 then 0 else open, close)
  {
    var start := Origin(open);
    hide Scanned, Run;
    var depth, inString, index := 0, false, start;
    ScanStarts(text, start);
    while index < |text|
      invariant start <= index
      invariant Scanned(text, start, index, Lex(depth, if inString then Str else Code))
    {
      var c := text[index];
      ScanOne(text, start, index, Lex(depth, if inString then Str else Code));
      if inString {
        if c == '\\' {
          ScanEscaped(text, start, index + 1, depth);
          index := index + 1;
        } else if c == '"' {
          inString := false;
        }
        index := index + 1;
        continue;
      }
      if c == '"' {
        inString := true;
      } else if c == '{' {
        depth := depth + 1;
      } else if c == '}' {
        depth := depth - 1;
        if depth == 0 {
          return index;
        }
      }
      index := index + 1;
    }
    ScanEnds(text, start, index, Lex(depth, if inString then Str else Code));
    return -1;
  }

  // ---- Balanced text --------------------------------------------------------------------------

  /** Text that leaves the depth as it finds it and never returns it to zero. */
  ghost predicate Neutral(s: string) {
    && (forall d :: NeutralAt(s, d))
    && forall k, d :: 0 <= k < |s| && d >= 1 ==> !Drops(s, k, d)
  }

  predicate NeutralAt(s: string, d: int) { Run(Lex(d, Code), s) == Lex(d, Code) }

  predicate Drops(s: string, k: nat, d: int)
    requires k < |s|
  {
    Run(Lex(d, Code), s[..k]) == Lex(1, Code) && s[k] == '}'
  }

  lemma NeutralConcat(s: string, t: string)
    requires Neutral(s) && Neutral(t)
    ensures Neutral(s + t)
  {
    forall d ensures NeutralAt(s + t, d)
    {
      RunConcat(Lex(d, Code), s, t);
      assert NeutralAt(s, d) && NeutralAt(t, d);
    }
    forall k, d | 0 <= k < |s + t| && d >= 1 ensures !Drops(s + t, k, d)
    {
      if k < |s| {
        assert (s + t)[..k] == s[..k];
        assert !Drops(s, k, d);
      } else {
        assert (s + t)[..k] == s + t[..k - |s|];
        RunConcat(Lex(d, Code), s, t[..k - |s|]);
        assert NeutralAt(s, d) && !Drops(t, k - |s|, d);
      }
    }
  }

  predicate Plain(s: string) { forall i :: 0 <= i < |s| ==> s[i] != '"' && s[i] != '{' && s[i] != '}' }

  /** Text without quotes and braces is neutral. */
  lemma NeutralPlain(s: string)
    requires Plain(s)
    ensures Neutral(s)
  {
    forall d ensures NeutralAt(s, d)
    {
      RunPlain(s, d);
    }
    forall k, d | 0 <= k < |s| && d >= 1 ensures !Drops(s, k, d)
    {
      assert s[k] != '}';
    }
  }

  lemma {:induction false} RunPlain(s: string, d: int)
    requires Plain(s)
    ensures Run(Lex(d, Code), s) == Lex(d, Code)
    decreases |s|
  {
    if s != "" {
      assert s[|s| - 1] != '"' && s[|s| - 1] != '{' && s[|s| - 1] != '}';
      RunPlain(s[..|s| - 1], d);
    }
  }

  /** Neutral text between braces is neutral again, and the second brace is where the first one closes. */
  lemma NeutralBraces(s: string)
    requires Neutral(s)
    ensures Neutral("{" + s + "}")
    ensures forall pre, post :: Delimits(pre, "{" + s + "}", post)
  {
    hide Neutral;
    forall d ensures NeutralAt("{" + s + "}", d)
    {
      RunBraces(s, d);
    }
    forall k, d | 0 <= k < |"{" + s + "}"| && d >= 1 ensures !Drops("{" + s + "}", k, d)
    {
      DropsInBraces(s, k, d);
    }
    assert Neutral("{" + s + "}") by { NeutralFrom("{" + s + "}"); }
    forall pre, post ensures Delimits(pre, "{" + s + "}", post)
    {
      BracesDelimit(pre, s, post);
    }
  }

  lemma NeutralFrom(s: string)
    requires forall d :: NeutralAt(s, d)
    requires forall k, d :: 0 <= k < |s| && d >= 1 ==> !Drops(s, k, d)
    ensures Neutral(s)
  {
  }

  /** Wherever the object stands, its last character is where its first brace closes. */
  predicate Delimits(pre: string, braced: string, post: string) {
    braced != "" && ClosesAt(pre + braced + post, |pre|, |pre| + |braced| - 1)
  }

  lemma RunBraces(s: string, d: int)
    requires Neutral(s)
    ensures Run(Lex(d, Code), "{" + s) == Lex(d + 1, Code)
    ensures Run(Lex(d, Code), "{" + s + "}") == Lex(d, Code)
  {
    RunConcat(Lex(d, Code), "{", s);
    RunOne(Lex(d, Code), "", '{');
    assert "" + ['{'] == "{";
    assert NeutralAt(s, d + 1);
    RunOne(Lex(d, Code), "{" + s, '}');
    assert "{" + s + "}" == ("{" + s) + ['}'];
  }

  /** Between the braces the depth stays above what it was in front of them. */
  lemma DropsInBraces(s: string, k: nat, d: int)
    requires Neutral(s) && k < |"{" + s + "}"| && d >= 0
    ensures Drops("{" + s + "}", k, d) ==> d == 0 && k == |s| + 1
  {
    var t := "{" + s + "}";
    if 1 <= k <= |s| {
      assert t[..k] == "{" + s[..k - 1];
      RunConcat(Lex(d, Code), "{", s[..k - 1]);
      RunOne(Lex(d, Code), "", '{');
      assert "" + ['{'] == "{";
      assert !Drops(s, k - 1, d + 1);
    } else if k == |s| + 1 {
      assert t[..k] == "{" + s;
      RunBraces(s, d);
    }
  }

  lemma BracesDelimit(pre: string, s: string, post: string)
    requires Neutral(s)
    ensures Delimits(pre, "{" + s + "}", post)
  {
    var t := "{" + s + "}";
    var text, close := pre + t + post, |pre| + |t| - 1;
    forall k | |pre| <= k <= close ensures Returns(text, |pre|, k) <==> Drops(t, k - |pre|, 0)
    {
      assert text[|pre|..k] == t[..k - |pre|];
    }
    forall k | |pre| <= k < close ensures !Returns(text, |pre|, k)
    {
      DropsInBraces(s, k - |pre|, 0);
    }
    RunBraces(s, 0);
    assert t[..|t| - 1] == "{" + s;
    assert Drops(t, |t| - 1, 0);
    assert Returns(text, |pre|, close);
  }

  // ---- A quoted string is neutral -------------------------------------------------------------

  lemma NeutralQuote(s: string)
    ensures Neutral(R.Quote(s))
  {
    var q := R.Quote(s);
    forall d ensures NeutralAt(q, d)
    {
      RunQuote(s, d);
    }
    forall k, d | 0 <= k < |q| && d >= 1 ensures !Drops(q, k, d)
    {
      QuoteIsString(s, k, d);
    }
  }

  lemma RunQuote(s: string, d: int)
    ensures Run(Lex(d, Code), R.Quote(s)) == Lex(d, Code)
  {
    OpenQuote(R.Body(s), d);
    RunBody(s, d);
    RunOne(Lex(d, Code), "\"" + R.Body(s), '"');
    assert R.Quote(s) == ("\"" + R.Body(s)) + ['"'];
  }

  lemma OpenQuote(s: string, d: int)
    ensures Run(Lex(d, Code), "\"" + s) == Run(Lex(d, Str), s)
  {
    RunConcat(Lex(d, Code), "\"", s);
    RunOne(Lex(d, Code), "", '"');
    assert "" + ['"'] == "\"";
  }

  predicate Unescaped(c: char) { c != '"' && c != '\\' }

  lemma EscapeShape(c: char)
    ensures var e := R.Escape(c);
      || (|e| == 1 && Unescaped(e[0]))
      || (|e| == 2 && e[0] == '\\')
      || (|e| == 6 && e[0] == '\\' && forall k :: 2 <= k < 6 ==> Unescaped(e[k]))
  {
    if c as int < 32 {
      assert Unescaped(R.HEX[c as int / 16]) && Unescaped(R.HEX[c as int % 16]) by {
        HexUnescaped(c as int / 16);
        HexUnescaped(c as int % 16);
      }
    }
  }

  lemma HexUnescaped(i: nat)
    requires i < 16
    ensures Unescaped(R.HEX[i])
  {
  }

  lemma RunEscape(c: char, d: int)
    ensures Run(Lex(d, Str), R.Escape(c)) == Lex(d, Str)
    ensures forall k :: 0 <= k < |R.Escape(c)| ==> Run(Lex(d, Str), R.Escape(c)[..k]).mode != Code
  {
    EscapeShape(c);
    hide R.Escape, Run;
    var l, e := Lex(d, Str), R.Escape(c);
    assert e[..0] == "" && e[..|e|] == e;
    RunNothing(l);
    assert e[..1] == e[..0] + [e[0]];
    RunOne(l, e[..0], e[0]);
    if |e| >= 2 {
      assert e[..2] == e[..1] + [e[1]];
      RunOne(l, e[..1], e[1]);
    }
    if |e| == 6 {
      RunHex(l, e);
    }
  }

  lemma RunNothing(l: Lex)
    ensures Run(l, "") == l
  {
  }

  lemma RunHex(l: Lex, e: string)
    requires l.mode == Str && |e| == 6 && Run(l, e[..2]) == l
    requires forall k :: 2 <= k < 6 ==> Unescaped(e[k])
    ensures forall k :: 2 <= k <= 6 ==> Run(l, e[..k]) == l
  {
    for k := 2 to 6
      invariant forall j :: 2 <= j <= k ==> Run(l, e[..j]) == l
    {
      assert e[..k + 1] == e[..k] + [e[k]];
      RunOne(l, e[..k], e[k]);
    }
  }

  lemma {:induction false} RunBody(s: string, d: int)
    ensures Run(Lex(d, Str), R.Body(s)) == Lex(d, Str)
    ensures forall k :: 0 <= k <= |R.Body(s)| ==> Run(Lex(d, Str), R.Body(s)[..k]).mode != Code
  {
    hide R.Escape;
    if s != "" {
      var e, rest := R.Escape(s[0]), R.Body(s[1..]);
      RunEscape(s[0], d);
      RunBody(s[1..], d);
      RunConcat(Lex(d, Str), e, rest);
      forall k | 0 <= k <= |e + rest| ensures Run(Lex(d, Str), (e + rest)[..k]).mode != Code
      {
        if k < |e| {
          assert (e + rest)[..k] == e[..k];
        } else {
          assert (e + rest)[..k] == e + rest[..k - |e|];
          RunConcat(Lex(d, Str), e, rest[..k - |e|]);
        }
      }
    }
  }

  /** No character of a quoted string is read as code except its opening quote. */
  lemma QuoteIsString(s: string, k: nat, d: int)
    requires k < |R.Quote(s)|
    ensures !Drops(R.Quote(s), k, d)
  {
    var q := R.Quote(s);
    if 1 <= k < |q| - 1 {
      assert q[..k] == "\"" + R.Body(s)[..k - 1];
      OpenQuote(R.Body(s)[..k - 1], d);
      RunBody(s, d);
    }
  }
}
