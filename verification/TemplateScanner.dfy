/**
 * The scanner of the mastery audit that drops comments and string text but keeps
 * the code inside template interpolations, however deeply they nest.
 */
module TemplateScanner {

  // ---- The scanner ------------------------------------------------------------------

  datatype Mode = InCode | InLine | InBlock | InSingle | InDouble | InTemplate
  datatype State = State(mode: Mode, braceDepth: int, interpStack: seq<int>)
  datatype Result = Result(text: string, end: State)

  /** One move of the scanner: what it emits, how far it advances, and where it is then. */
  datatype Move = Move(emit: string, width: Width, next: State)

  type Width = w: nat | 1 <= w <= 2 witness 1

  datatype Next = EndOfText | Following(c: char)

  function Peek(src: string): Next { if |src| > 1 then Following(src[1]) else EndOfText }

  function Drop(src: string, k: nat): string { if k <= |src| then src[k..] else "" }

  function QuotedMove(c: char, quote: char, st: State): Move {
    if c == '\\' then Move("", 2, st)
    else Move("", 1, if c == quote then st.(mode := InCode) else st)
  }

  function CodeMove(c: char, next: Next, st: State): Move {
    if c == '/' && next == Following('/') then Move("", 2, st.(mode := InLine))
    else if c == '/' && next == Following('*') then Move("", 2, st.(mode := InBlock))
    else if c == '\'' then Move("", 1, st.(mode := InSingle))
    else if c == '"' then Move("", 1, st.(mode := InDouble))
    else if c == '`' then Move("", 1, st.(mode := InTemplate))
    else if c == '{' then Move([c], 1, st.(braceDepth := st.braceDepth + 1))
    else if c == '}' then
      var depth := st.braceDepth - 1;
      var n := |st.interpStack|;
      if n > 0 && st.interpStack[n - 1] == depth
      then Move("", 1, State(InTemplate, depth, st.interpStack[..n - 1]))
      else Move([c], 1, st.(braceDepth := depth))
    else Move([c], 1, st)
  }

  function NextMove(c: char, next: Next, st: State): Move {
    match st.mode
    case InLine => if c == '\n' then Move([c], 1, st.(mode := InCode)) else Move("", 1, st)
    case InBlock => if c == '*' && next == Following('/') then Move("", 2, st.(mode := InCode)) else Move("", 1, st)
    case InSingle => QuotedMove(c, '\'', st)
    case InDouble => QuotedMove(c, '"', st)
    case InTemplate =>
      if c == '\\' then Move("", 2, st)
      else if c == '`' then Move("", 1, st.(mode := InCode))
      else if c == '$' && next == Following('{') then
        Move("", 2, State(InCode, st.braceDepth + 1, st.interpStack + [st.braceDepth]))
      else Move("", 1, st)
    case InCode => CodeMove(c, next, st)
  }

  /** The whole run of the scanner from `st`. */
  function Scan(src: string, st: State): Result
    decreases |src|
  {
    if src == "" then Result("", st)
    else
      var move := NextMove(src[0], Peek(src), st);
      var rest := Scan(Drop(src, move.width), move.next);
      Result(move.emit + rest.text, rest.end)
  }

  const START := State(InCode, 0, [])

  /** The defining equation of Scan, for use where Scan is hidden. */
  lemma ScanStep(src: string, st: State)
    requires src != ""
    ensures
      var move := NextMove(src[0], Peek(src), st);
      Scan(src, st) == Prefixed(move.emit, Scan(Drop(src, move.width), move.next))
  {
  }

  function Prefixed(text: string, r: Result): Result { r.(text := text + r.text) }

  lemma ScanUnfold(src: string, i: nat, st: State)
    requires i < |src|
    ensures
      var move := NextMove(src[i], if i + 1 < |src| then Following(src[i + 1]) else EndOfText, st);
      Scan(Drop(src, i), st).text == move.emit + Scan(Drop(src, i + move.width), move.next).text
  {
    hide Scan;
    ScanStep(Drop(src, i), st);
    var move := NextMove(src[i], if i + 1 < |src| then Following(src[i + 1]) else EndOfText, st);
    assert Drop(Drop(src, i), move.width) == Drop(src, i + move.width);
  }

  lemma ScanEnds(src: string)
    ensures Drop(src, 0) == src
    ensures forall i: nat, st :: i >= |src| ==> Scan(Drop(src, i), st).text == ""
  {
  }

  method StripCommentsAndStrings(src: string) returns (out: string)
    ensures out == Scan(src, START).text
  {
    hide Scan, Drop;
    out := "";
    var i := 0;
    ScanEnds(src);
    var n := |src|;
    var inLine, inBlock, inSingle, inDouble, inTemplate := false, false, false, false, false;
    var braceDepth := 0;
    var interpStack: seq<int> := [];
    ghost var st := START;
    while i < n
      invariant i <= n + 1
      invariant inLine == st.mode.InLine? && inBlock == st.mode.InBlock? && inSingle == st.mode.InSingle?
      invariant inDouble == st.mode.InDouble? && inTemplate == st.mode.InTemplate?
      invariant braceDepth == st.braceDepth && interpStack == st.interpStack
      invariant out + Scan(Drop(src, i), st).text == Scan(src, START).text
      decreases n - i
    {
      var c := src[i];
      var next := if i + 1 < n then Following(src[i + 1]) else EndOfText;
      ghost var move := NextMove(c, next, st);
      ScanUnfold(src, i, st);
      assert (out + move.emit) + Scan(Drop(src, i + move.width), move.next).text == Scan(src, START).text;
      st := move.next;
      if inLine {
        if c == '\n' {
          inLine := false;
          out := out + [c];
        }
        i := i + 1;
        continue;
      }
      if inBlock {
        if c == '*' && next == Following('/') {
          inBlock := false;
          i := i + 2;
          continue;
        }
        i := i + 1;
        continue;
      }
      if inSingle {
        if c == '\\' {
          i := i + 2;
          continue;
        }
        if c == '\'' { inSingle := false; }
        i := i + 1;
        continue;
      }
      if inDouble {
        if c == '\\' {
          i := i + 2;
          continue;
        }
        if c == '"' { inDouble := false; }
        i := i + 1;
        continue;
      }
      if inTemplate {
        if c == '\\' {
          i := i + 2;
          continue;
        }
        if c == '`' {
          inTemplate := false;
          i := i + 1;
          continue;
        }
        if c == '$' && next == Following('{') {
          interpStack := interpStack + [braceDepth];
          braceDepth := braceDepth + 1;
          inTemplate := false;
          i := i + 2;
          continue;
        }
        i := i + 1;
        continue;
      }
      if c == '/' && next == Following('/') {
        inLine := true;
        i := i + 2;
        continue;
      }
      if c == '/' && next == Following('*') {
        inBlock := true;
        i := i + 2;
        continue;
      }
      if c == '\'' {
        inSingle := true;
        i := i + 1;
        continue;
      }
      if c == '"' {
        inDouble := true;
        i := i + 1;
        continue;
      }
      if c == '`' {
        inTemplate := true;
        i := i + 1;
        continue;
      }
      if c == '{' {
        braceDepth := braceDepth + 1;
        out := out + [c];
        i := i + 1;
        continue;
      }
      if c == '}' {
        braceDepth := braceDepth - 1;
        if |interpStack| > 0 && interpStack[|interpStack| - 1] == braceDepth {
          interpStack := interpStack[..|interpStack| - 1];
          inTemplate := true;
          i := i + 1;
          continue;
        }
        out := out + [c];
        i := i + 1;
        continue;
      }
      out := out + [c];
      i := i + 1;
    }
  }

  // ---- The grammar -----------------------------------------------------------------------

  /** Code as a sequence of pieces; only the outermost sequence may end in an unterminated line comment. */
  datatype Code =
    | End
    | EndComment(text: string)
    | Chr(c: char, rest: Code)
    | LineComment(text: string, rest: Code)
    | BlockComment(text: string, rest: Code)
    | Quoted(quote: char, body: Text, rest: Code)
    | Template(parts: Parts, rest: Code)
    | Braces(inner: Code, rest: Code)

  datatype Text = TextEnd | Plain(c: char, rest: Text) | Escaped(c: char, rest: Text)

  datatype Parts = PartsEnd | Raw(c: char, rest: Parts) | RawEscape(c: char, rest: Parts) | Interp(code: Code, rest: Parts)

  function Render(code: Code): string {
    match code
    case End => ""
    case EndComment(text) => "//" + text
    case Chr(c, rest) => [c] + Render(rest)
    case LineComment(text, rest) => "//" + text + "\n" + Render(rest)
    case BlockComment(text, rest) => "/*" + text + "*/" + Render(rest)
    case Quoted(quote, body, rest) => [quote] + RenderText(body, quote) + Render(rest)
    case Template(parts, rest) => "`" + RenderParts(parts) + Render(rest)
    case Braces(inner, rest) => "{" + Render(inner) + "}" + Render(rest)
  }

  /** A string body with its closing quote. */
  function RenderText(body: Text, quote: char): string {
    match body
    case TextEnd => [quote]
    case Plain(c, rest) => [c] + RenderText(rest, quote)
    case Escaped(c, rest) => ['\\', c] + RenderText(rest, quote)
  }

  /** A template body with its closing back quote. */
  function RenderParts(parts: Parts): string {
    match parts
    case PartsEnd => "`"
    case Raw(c, rest) => [c] + RenderParts(rest)
    case RawEscape(c, rest) => ['\\', c] + RenderParts(rest)
    case Interp(code, rest) => "${" + Render(code) + "}" + RenderParts(rest)
  }

  /** What the scanner is meant to keep: code, line-comment newlines, and interpolated code. */
  function Erase(code: Code): string {
    match code
    case End => ""
    case EndComment(_) => ""
    case Chr(c, rest) => [c] + Erase(rest)
    case LineComment(_, rest) => "\n" + Erase(rest)
    case BlockComment(_, rest) => Erase(rest)
    case Quoted(_, _, rest) => Erase(rest)
    case Template(parts, rest) => EraseParts(parts) + Erase(rest)
    case Braces(inner, rest) => "{" + Erase(inner) + "}" + Erase(rest)
  }

  function EraseParts(parts: Parts): string {
    match parts
    case PartsEnd => ""
    case Raw(_, rest) => EraseParts(rest)
    case RawEscape(_, rest) => EraseParts(rest)
    case Interp(code, rest) => Erase(code) + EraseParts(rest)
  }

  predicate OpensComment(s: string) { s != "" && (s[0] == '/' || s[0] == '*') }

  predicate WellFormed(code: Code, outermost: bool) {
    match code
    case End => true
    case EndComment(text) => outermost && '\n' !in text
    case Chr(c, rest) =>
      c !in {'\'', '"', '`', '{', '}'} && WellFormed(rest, outermost) && (c == '/' ==> !OpensComment(Render(rest)))
    case LineComment(text, rest) => '\n' !in text && WellFormed(rest, outermost)
    case BlockComment(text, rest) => NoClose(text) && WellFormed(rest, outermost)
    case Quoted(quote, body, rest) => quote in {'\'', '"'} && WellFormedText(body, quote) && WellFormed(rest, outermost)
    case Template(parts, rest) => WellFormedParts(parts) && WellFormed(rest, outermost)
    case Braces(inner, rest) => WellFormed(inner, false) && WellFormed(rest, outermost)
  }

  /** A block comment's text does not contain the closing mark. */
  predicate NoClose(text: string) {
    forall i :: 0 <= i < |text| - 1 ==> !(text[i] == '*' && text[i + 1] == '/')
  }

  predicate WellFormedText(body: Text, quote: char) {
    match body
    case TextEnd => true
    case Plain(c, rest) => c != quote && c != '\\' && WellFormedText(rest, quote)
    case Escaped(_, rest) => WellFormedText(rest, quote)
  }

  predicate WellFormedParts(parts: Parts) {
    match parts
    case PartsEnd => true
    case Raw(c, rest) => c != '`' && c != '\\' && WellFormedParts(rest) && (c == '$' ==> RenderParts(rest)[..1] != "{")
    case RawEscape(_, rest) => WellFormedParts(rest)
    case Interp(code, rest) => WellFormed(code, false) && WellFormedParts(rest)
  }

  // ---- The scanner computes the erasure ----------------------------------------------------

  /** No pending interpolation is waiting for the current brace depth. */
  predicate Clear(st: State) {
    st.interpStack == [] || st.interpStack[|st.interpStack| - 1] < st.braceDepth
  }

  /** The state after a piece of code: unchanged, unless it ends inside a line comment. */
  function After(code: Code, st: State): State {
    match code
    case End => st
    case EndComment(_) => st.(mode := InLine)
    case Chr(_, rest) => After(rest, st)
    case LineComment(_, rest) => After(rest, st)
    case BlockComment(_, rest) => After(rest, st)
    case Quoted(_, _, rest) => After(rest, st)
    case Template(_, rest) => After(rest, st)
    case Braces(_, rest) => After(rest, st)
  }

  lemma {:induction false} ScanLine(text: string, tail: string, st: State)
    requires '\n' !in text && st.mode == InLine
    ensures Scan(text + tail, st) == Scan(tail, st)
    decreases |text|
  {
    hide Scan;
    if text == "" {
      assert text + tail == tail;
    } else {
      ScanStep(text + tail, st);
      assert (text + tail)[1..] == text[1..] + tail;
      ScanLine(text[1..], tail, st);
    }
  }

  lemma {:induction false} ScanBlock(text: string, tail: string, st: State)
    requires NoClose(text) && st.mode == InBlock
    ensures Scan(text + "*/" + tail, st) == Scan(tail, st.(mode := InCode))
    decreases |text|
  {
    hide Scan;
    var src := text + "*/" + tail;
    ScanStep(src, st);
    if text == "" {
      assert src == "*/" + tail && src[2..] == tail;
    } else {
      assert src[1..] == text[1..] + "*/" + tail;
      assert |text| == 1 ==> src[1] == '*';
      assert |text| > 1 ==> src[1] == text[1];
      ScanBlock(text[1..], tail, st);
    }
  }

  lemma {:induction false} ScanText(body: Text, quote: char, tail: string, st: State)
    requires WellFormedText(body, quote)
    requires (quote == '\'' && st.mode == InSingle) || (quote == '"' && st.mode == InDouble)
    ensures Scan(RenderText(body, quote) + tail, st) == Scan(tail, st.(mode := InCode))
    decreases body
  {
    hide Scan;
    var src := RenderText(body, quote) + tail;
    ScanStep(src, st);
    match body
    case TextEnd =>
      assert src[1..] == tail;
    case Plain(c, rest) =>
      assert src[1..] == RenderText(rest, quote) + tail;
      ScanText(rest, quote, tail, st);
    case Escaped(c, rest) =>
      assert src[2..] == RenderText(rest, quote) + tail;
      ScanText(rest, quote, tail, st);
  }

  /** What may follow inner code: nothing, or the brace that ends it. */
  predicate Terminates(tail: string) { tail == "" || tail[0] == '}' }

  lemma {:induction false} ScanCode(code: Code, outermost: bool, tail: string, st: State)
    requires WellFormed(code, outermost) && st.mode == InCode && Clear(st)
    requires if outermost then tail == "" else Terminates(tail)
    ensures Scan(Render(code) + tail, st) == Prefixed(Erase(code), Scan(tail, After(code, st)))
    ensures !outermost ==> After(code, st) == st
    decreases code, 0
  {
    hide Scan;
    match code
    case End =>
      assert Render(code) + tail == tail;
    case EndComment(text) =>
      ScanOpenComment(text, tail, st);
    case Chr(c, rest) =>
      ScanCode(rest, outermost, tail, st);
      assert OpensComment(Render(rest) + tail) ==> OpensComment(Render(rest));
      ScanChr(c, Render(rest) + tail, st);
      Glue([c], Render(rest), tail, [c], Erase(rest), Scan(tail, After(rest, st)));
    case LineComment(text, rest) =>
      ScanCode(rest, outermost, tail, st);
      ScanLineComment(text, Render(rest) + tail, st);
      Glue("//" + text + "\n", Render(rest), tail, "\n", Erase(rest), Scan(tail, After(rest, st)));
    case BlockComment(text, rest) =>
      ScanCode(rest, outermost, tail, st);
      ScanBlockComment(text, Render(rest) + tail, st);
      Glue("/*" + text + "*/", Render(rest), tail, "", Erase(rest), Scan(tail, After(rest, st)));
    case Quoted(quote, body, rest) =>
      ScanCode(rest, outermost, tail, st);
      ScanQuoted(quote, body, Render(rest) + tail, st);
      Glue([quote] + RenderText(body, quote), Render(rest), tail, "", Erase(rest), Scan(tail, After(rest, st)));
    case Template(parts, rest) =>
      ScanCode(rest, outermost, tail, st);
      ScanTemplate(parts, Render(rest) + tail, st);
      Glue("`" + RenderParts(parts), Render(rest), tail, EraseParts(parts), Erase(rest), Scan(tail, After(rest, st)));
    case Braces(inner, rest) =>
      ScanCode(rest, outermost, tail, st);
      ScanBraces(inner, Render(rest) + tail, st);
      Glue("{" + Render(inner) + "}", Render(rest), tail, "{" + Erase(inner) + "}", Erase(rest),
           Scan(tail, After(rest, st)));
  }

  /** Reassociates a rendered piece with what follows it, and its erasure likewise. */
  lemma Glue(piece: string, rest: string, tail: string, kept: string, restKept: string, r: Result)
    ensures (piece + rest) + tail == piece + (rest + tail)
    ensures Prefixed(kept + restKept, r) == Prefixed(kept, Prefixed(restKept, r))
    ensures Prefixed("", r) == r
  {
  }

  lemma ScanOpenComment(text: string, tail: string, st: State)
    requires '\n' !in text && st.mode == InCode && tail == ""
    ensures Scan("//" + text + tail, st) == Prefixed("", Scan(tail, st.(mode := InLine)))
  {
    hide Scan;
    ScanStep("//" + text + tail, st);
    assert ("//" + text + tail)[2..] == text + tail;
    ScanLine(text, tail, st.(mode := InLine));
  }

  lemma ScanChr(c: char, tail: string, st: State)
    requires st.mode == InCode && c !in {'\'', '"', '`', '{', '}'} && (c == '/' ==> !OpensComment(tail))
    ensures Scan([c] + tail, st) == Prefixed([c], Scan(tail, st))
  {
    hide Scan;
    ScanStep([c] + tail, st);
    assert ([c] + tail)[1..] == tail;
  }

  lemma ScanLineComment(text: string, tail: string, st: State)
    requires st.mode == InCode && '\n' !in text
    ensures Scan("//" + text + "\n" + tail, st) == Prefixed("\n", Scan(tail, st))
  {
    hide Scan;
    var newline := "\n" + tail;
    ScanStep("//" + text + "\n" + tail, st);
    assert ("//" + text + "\n" + tail)[2..] == text + newline;
    ScanLine(text, newline, st.(mode := InLine));
    ScanStep(newline, st.(mode := InLine));
    assert newline[1..] == tail;
  }

  lemma ScanBlockComment(text: string, tail: string, st: State)
    requires st.mode == InCode && NoClose(text)
    ensures Scan("/*" + text + "*/" + tail, st) == Scan(tail, st)
  {
    hide Scan;
    ScanStep("/*" + text + "*/" + tail, st);
    assert ("/*" + text + "*/" + tail)[2..] == text + "*/" + tail;
    ScanBlock(text, tail, st.(mode := InBlock));
  }

  lemma ScanQuoted(quote: char, body: Text, tail: string, st: State)
    requires st.mode == InCode && quote in {'\'', '"'} && WellFormedText(body, quote)
    ensures Scan([quote] + RenderText(body, quote) + tail, st) == Scan(tail, st)
  {
    hide Scan;
    ScanStep([quote] + RenderText(body, quote) + tail, st);
    assert ([quote] + RenderText(body, quote) + tail)[1..] == RenderText(body, quote) + tail;
    ScanText(body, quote, tail, st.(mode := if quote == '"' then InDouble else InSingle));
  }

  lemma ScanTemplate(parts: Parts, tail: string, st: State)
    requires st.mode == InCode && Clear(st) && WellFormedParts(parts)
    ensures Scan("`" + RenderParts(parts) + tail, st) == Prefixed(EraseParts(parts), Scan(tail, st))
    decreases parts, 1
  {
    hide Scan;
    ScanStep("`" + RenderParts(parts) + tail, st);
    assert ("`" + RenderParts(parts) + tail)[1..] == RenderParts(parts) + tail;
    ScanParts(parts, tail, st.(mode := InTemplate));
  }

  /** A brace block: the depth goes up for the inside and comes back, and no interpolation is closed. */
  lemma ScanBraces(inner: Code, tail: string, st: State)
    requires WellFormed(inner, false) && st.mode == InCode && Clear(st)
    ensures Scan("{" + Render(inner) + "}" + tail, st) == Prefixed("{" + Erase(inner) + "}", Scan(tail, st))
    decreases inner, 1
  {
    hide Scan, Render, Erase, After, Prefixed;
    var close := "}" + tail;
    var deeper := st.(braceDepth := st.braceDepth + 1);
    Enclose("{", Render(inner), "}", tail);
    ScanOpeningBrace(Render(inner) + close, st);
    ScanCode(inner, false, close, deeper);
    ScanClosingBrace(tail, st);
    EnclosePrefix("{", Erase(inner), "}", Scan(tail, st));
  }

  lemma Enclose(open: string, inner: string, close: string, tail: string)
    ensures open + inner + close + tail == open + (inner + (close + tail))
  {
  }

  lemma EnclosePrefix(open: string, inner: string, close: string, r: Result)
    ensures Prefixed(open, Prefixed(inner, Prefixed(close, r))) == Prefixed(open + inner + close, r)
  {
    Enclose(open, inner, close, r.text);
  }

  lemma ScanOpeningBrace(tail: string, st: State)
    requires st.mode == InCode
    ensures Scan("{" + tail, st) == Prefixed("{", Scan(tail, st.(braceDepth := st.braceDepth + 1)))
  {
    hide Scan;
    var src := "{" + tail;
    ScanStep(src, st);
    assert [src[0]] == "{";
    assert NextMove(src[0], Peek(src), st) == Move("{", 1, st.(braceDepth := st.braceDepth + 1));
    assert Drop(src, 1) == tail;
  }

  lemma ScanClosingBrace(tail: string, st: State)
    requires st.mode == InCode && Clear(st)
    ensures Scan("}" + tail, st.(braceDepth := st.braceDepth + 1)) == Prefixed("}", Scan(tail, st))
  {
    hide Scan;
    ScanStep("}" + tail, st.(braceDepth := st.braceDepth + 1));
    assert ("}" + tail)[1..] == tail;
  }

  lemma {:induction false} ScanParts(parts: Parts, tail: string, st: State)
    requires WellFormedParts(parts) && st.mode == InTemplate && Clear(st)
    ensures Scan(RenderParts(parts) + tail, st) == Prefixed(EraseParts(parts), Scan(tail, st.(mode := InCode)))
    decreases parts, 0
  {
    hide Scan;
    match parts
    case PartsEnd =>
      ScanStep(RenderParts(parts) + tail, st);
      assert (RenderParts(parts) + tail)[1..] == tail;
    case Raw(c, rest) =>
      ScanStep(RenderParts(parts) + tail, st);
      assert (RenderParts(parts) + tail)[1..] == RenderParts(rest) + tail;
      assert RenderParts(rest) != "";
      ScanParts(rest, tail, st);
    case RawEscape(c, rest) =>
      ScanStep(RenderParts(parts) + tail, st);
      assert (RenderParts(parts) + tail)[2..] == RenderParts(rest) + tail;
      ScanParts(rest, tail, st);
    case Interp(code, rest) =>
      ScanInterp(code, RenderParts(rest) + tail, st);
      ScanParts(rest, tail, st);
      Glue("${" + Render(code) + "}", RenderParts(rest), tail, Erase(code), EraseParts(rest),
           Scan(tail, st.(mode := InCode)));
  }

  /** An interpolation: its code is kept, its delimiters are not, and the template resumes. */
  lemma ScanInterp(code: Code, tail: string, st: State)
    requires WellFormed(code, false) && st.mode == InTemplate && Clear(st)
    ensures Scan("${" + Render(code) + "}" + tail, st) == Prefixed(Erase(code), Scan(tail, st))
    decreases code, 1
  {
    hide Scan;
    var close := "}" + tail;
    var inside := State(InCode, st.braceDepth + 1, st.interpStack + [st.braceDepth]);
    Enclose("${", Render(code), "}", tail);
    ScanInterpStart(Render(code) + close, st);
    ScanCode(code, false, close, inside);
    ScanInterpEnd(tail, st);
  }

  lemma ScanInterpStart(tail: string, st: State)
    requires st.mode == InTemplate
    ensures Scan("${" + tail, st) == Scan(tail, State(InCode, st.braceDepth + 1, st.interpStack + [st.braceDepth]))
  {
    hide Scan;
    ScanStep("${" + tail, st);
    assert ("${" + tail)[2..] == tail;
  }

  lemma ScanInterpEnd(tail: string, st: State)
    requires st.mode == InTemplate
    ensures Scan("}" + tail, State(InCode, st.braceDepth + 1, st.interpStack + [st.braceDepth])) == Scan(tail, st)
  {
    hide Scan;
    ScanStep("}" + tail, State(InCode, st.braceDepth + 1, st.interpStack + [st.braceDepth]));
    assert ("}" + tail)[1..] == tail;
    assert (st.interpStack + [st.braceDepth])[..|st.interpStack|] == st.interpStack;
  }

  /**
   * On every rendering of the grammar the scanner outputs the erasure, and brace depth
   * and interpolation stack end where they began.
   */
  lemma ScannerComputesErasure(code: Code)
    requires WellFormed(code, true)
    ensures Scan(Render(code), START).text == Erase(code)
    ensures var end := Scan(Render(code), START).end; end.braceDepth == 0 && end.interpStack == []
  {
    ScanCode(code, true, "", START);
    assert Render(code) + "" == Render(code);
    assert Erase(code) + "" == Erase(code);
    AfterKeepsDepth(code, START);
  }

  lemma {:induction false} AfterKeepsDepth(code: Code, st: State)
    ensures After(code, st).braceDepth == st.braceDepth && After(code, st).interpStack == st.interpStack
  {
    match code
    case End =>
    case EndComment(_) =>
    case Chr(_, rest) => AfterKeepsDepth(rest, st);
    case LineComment(_, rest) => AfterKeepsDepth(rest, st);
    case BlockComment(_, rest) => AfterKeepsDepth(rest, st);
    case Quoted(_, _, rest) => AfterKeepsDepth(rest, st);
    case Template(_, rest) => AfterKeepsDepth(rest, st);
    case Braces(_, rest) => AfterKeepsDepth(rest, st);
  }

  const INNER := Chr('b', Braces(Quoted('\'', Plain('}', TextEnd), End), End))
  const PARTS := Raw('x', Interp(INNER, Raw('$', PartsEnd)))
  const TAIL := BlockComment("*", LineComment("`", EndComment("z")))
  const SAMPLE := Chr('a', Template(PARTS, TAIL))

  /** A template with a brace block and a quoted brace in its interpolation, and back quotes in comments. */
  lemma SampleErased()
    ensures Scan("a`x${b{'}'}}$`/***///`\n//z", START).text == "ab{}\n"
  {
    hide Render, Erase, RenderParts, EraseParts, WellFormedParts, Scan;
    assert WellFormed(SAMPLE, true) && Render(SAMPLE) == "a`x${b{'}'}}$`/***///`\n//z" && Erase(SAMPLE) == "ab{}\n" by {
      SampleText();
    }
    hide WellFormed;
    ScannerComputesErasure(SAMPLE);
  }

  lemma SampleText()
    ensures WellFormed(SAMPLE, true) && Render(SAMPLE) == "a`x${b{'}'}}$`/***///`\n//z" && Erase(SAMPLE) == "ab{}\n"
  {
    hide WellFormed, Render, Erase, RenderParts, EraseParts, WellFormedParts;
    PartsText();
    TailText();
    var t := Template(PARTS, TAIL);
    TemplateOf(PARTS, TAIL);
    assert "`" + "x${b{'}'}}$`" + "/***///`\n//z" == "`x${b{'}'}}$`/***///`\n//z";
    assert "b{}" + "\n" == "b{}\n";
    ChrOf('a', t);
    assert ['a'] + "`x${b{'}'}}$`/***///`\n//z" == "a`x${b{'}'}}$`/***///`\n//z";
  }

  lemma TemplateOf(parts: Parts, rest: Code)
    ensures WellFormed(Template(parts, rest), true) <==> WellFormedParts(parts) && WellFormed(rest, true)
    ensures Render(Template(parts, rest)) == "`" + RenderParts(parts) + Render(rest)
    ensures Erase(Template(parts, rest)) == EraseParts(parts) + Erase(rest)
  {
  }

  lemma ChrOf(c: char, rest: Code)
    requires c == 'a'
    ensures WellFormed(Chr(c, rest), true) <==> WellFormed(rest, true)
    ensures Render(Chr(c, rest)) == [c] + Render(rest) && Erase(Chr(c, rest)) == [c] + Erase(rest)
  {
  }

  lemma InnerText()
    ensures WellFormed(INNER, false) && Render(INNER) == "b{'}'}" && Erase(INNER) == "b{}"
  {
    var quoted := Quoted('\'', Plain('}', TextEnd), End);
    assert RenderText(TextEnd, '\'') == "'" && RenderText(Plain('}', TextEnd), '\'') == "}'";
    assert WellFormed(quoted, false) && Render(quoted) == "'}'" && Erase(quoted) == "";
    assert Render(Braces(quoted, End)) == "{'}'}" && Erase(Braces(quoted, End)) == "{}";
  }

  lemma PartsText()
    ensures WellFormedParts(PARTS) && RenderParts(PARTS) == "x${b{'}'}}$`" && EraseParts(PARTS) == "b{}"
  {
    InnerText();
    var dollar := Raw('$', PartsEnd);
    DollarText(dollar);
    hide Render, Erase, WellFormed;
    var interp := Interp(INNER, dollar);
    assert RenderParts(interp) == "${" + "b{'}'}" + "}" + "$`";
    assert WellFormedParts(interp) && EraseParts(interp) == "b{}";
    hide WellFormedParts, RenderParts, EraseParts;
    RawOf('x', interp);
  }

  lemma DollarText(dollar: Parts)
    requires dollar == Raw('$', PartsEnd)
    ensures WellFormedParts(dollar) && RenderParts(dollar) == "$`" && EraseParts(dollar) == ""
  {
    assert RenderParts(PartsEnd) == "`" && "`"[..1] == "`";
    assert ['$'] + "`" == "$`";
  }

  lemma RawOf(c: char, rest: Parts)
    requires c == 'x'
    ensures WellFormedParts(Raw(c, rest)) <==> WellFormedParts(rest)
    ensures RenderParts(Raw(c, rest)) == [c] + RenderParts(rest) && EraseParts(Raw(c, rest)) == EraseParts(rest)
  {
  }

  lemma TailText()
    ensures WellFormed(TAIL, true) && Render(TAIL) == "/***///`\n//z" && Erase(TAIL) == "\n"
  {
    assert Render(EndComment("z")) == "//z";
    assert Render(LineComment("`", EndComment("z"))) == "//`\n//z";
  }
}
