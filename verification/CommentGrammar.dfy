/**
 * What the two comment lexers do, said of the structure of a text: code characters, comments and
 * strings in one of three kinds of quotes. Every text has such a structure, unfinished ones included.
 */
module CommentGrammar {
  import opened CommentLexers

  // ---- The grammar --------------------------------------------------------------------------

  /** The inside of a string with its end: the closing quote, or the end of the text, perhaps behind a backslash. */
  datatype Text = Closed | Open | OpenEscape | Plain(c: char, rest: Text) | Escaped(c: char, rest: Text)

  datatype Source =
    | End
    | Chr(c: char, rest: Source)
    | LineComment(text: string, rest: Source)
    | LastLine(text: string)
    | BlockComment(text: string, rest: Source)
    | LastBlock(text: string)
    | Quoted(quote: char, body: Text, rest: Source)
    | LastQuoted(quote: char, body: Text)

  function RenderText(t: Text, quote: char): string {
    match t
    case Closed => [quote]
    case Open => ""
    case OpenEscape => "\\"
    case Plain(c, rest) => [c] + RenderText(rest, quote)
    case Escaped(c, rest) => ['\\', c] + RenderText(rest, quote)
  }

  function Render(x: Source): string {
    match x
    case End => ""
    case Chr(c, rest) => [c] + Render(rest)
    case LineComment(text, rest) => "//" + text + "\n" + Render(rest)
    case LastLine(text) => "//" + text
    case BlockComment(text, rest) => "/*" + text + "*/" + Render(rest)
    case LastBlock(text) => "/*" + text
    case Quoted(quote, body, rest) => [quote] + RenderText(body, quote) + Render(rest)
    case LastQuoted(quote, body) => [quote] + RenderText(body, quote)
  }

  predicate IsClosed(t: Text) {
    match t
    case Closed => true
    case Open => false
    case OpenEscape => false
    case Plain(_, rest) => IsClosed(rest)
    case Escaped(_, rest) => IsClosed(rest)
  }

  predicate TextOk(t: Text, quote: char) {
    match t
    case Plain(c, rest) => c != quote && c != '\\' && TextOk(rest, quote)
    case Escaped(_, rest) => TextOk(rest, quote)
    case _ => true
  }

  predicate NoClose(text: string) { forall i :: 0 <= i < |text| - 1 ==> text[i] != '*' || text[i + 1] != '/' }

  predicate Opens(s: string) { s != "" && s[0] in {'/', '*'} }

  predicate Ok(x: Source) {
    match x
    case End => true
    case Chr(c, rest) => c !in {'\'', '"', '`'} && (c == '/' ==> !Opens(Render(rest))) && Ok(rest)
    case LineComment(text, rest) => '\n' !in text && Ok(rest)
    case LastLine(text) => '\n' !in text
    case BlockComment(text, rest) => NoClose(text) && Ok(rest)
    case LastBlock(text) => NoClose(text)
    case Quoted(quote, body, rest) => quote in {'\'', '"', '`'} && TextOk(body, quote) && IsClosed(body) && Ok(rest)
    case LastQuoted(quote, body) => quote in {'\'', '"', '`'} && TextOk(body, quote) && !IsClosed(body)
  }

  // ---- What is to come out ----------------------------------------------------------------------

  /** The newlines of a text. */
  function NewlinesOf(s: string): string {
    if s == "" then "" else (if s[0] == '\n' then "\n" else "") + NewlinesOf(s[1..])
  }

  /** A space for every character but the newlines. */
  function Spaces(s: string): string {
    if s == "" then "" else (if s[0] == '\n' then "\n" else " ") + Spaces(s[1..])
  }

  /** Without comments: of a comment only its newlines are left, strings stay as they are. */
  function WithoutComments(x: Source): string {
    match x
    case End => ""
    case Chr(c, rest) => [c] + WithoutComments(rest)
    case LineComment(_, rest) => "\n" + WithoutComments(rest)
    case LastLine(_) => ""
    case BlockComment(text, rest) => NewlinesOf(text) + WithoutComments(rest)
    case LastBlock(text) => NewlinesOf(text)
    case Quoted(quote, body, rest) => [quote] + RenderText(body, quote) + WithoutComments(rest)
    case LastQuoted(quote, body) => [quote] + RenderText(body, quote)
  }

  /** With blanks for comments, delimiters included. */
  function WithBlankComments(x: Source): string {
    match x
    case End => ""
    case Chr(c, rest) => [c] + WithBlankComments(rest)
    case LineComment(text, rest) => "  " + Spaces(text) + "\n" + WithBlankComments(rest)
    case LastLine(text) => "  " + Spaces(text)
    case BlockComment(text, rest) => "  " + Spaces(text) + "  " + WithBlankComments(rest)
    case LastBlock(text) => "  " + Spaces(text)
    case Quoted(quote, body, rest) => [quote] + RenderText(body, quote) + WithBlankComments(rest)
    case LastQuoted(quote, body) => [quote] + RenderText(body, quote)
  }

  // ---- Pieces of text that are marked throughout, or nowhere ---------------------------------------

  /** Read in mode `m`, the piece is marked throughout or not at all, and `tail` is read on in mode `next`. */
  ghost predicate Reads(piece: string, marked: bool, m: Mode, tail: string, next: Mode) {
    Mask(piece + tail, m) == Marks(|piece|, marked) + Mask(tail, next)
  }

  function Marks(n: nat, marked: bool): (marks: seq<bool>)
    ensures |marks| == n && forall i :: 0 <= i < n ==> marks[i] == marked
  {
    seq(n, _ => marked)
  }

  lemma Both(s: string, t: string, marked: bool, m: Mode, tail: string, mid: Mode, next: Mode)
    requires Reads(s, marked, m, t + tail, mid) && Reads(t, marked, mid, tail, next)
    ensures Reads(s + t, marked, m, tail, next)
  {
    hide Mask;
    assert (s + t) + tail == s + (t + tail);
    assert Marks(|s + t|, marked) == Marks(|s|, marked) + Marks(|t|, marked);
  }

  lemma Nothing(marked: bool, m: Mode, tail: string)
    ensures Reads("", marked, m, tail, m)
  {
    assert "" + tail == tail;
  }

  lemma One(c: char, m: Mode, tail: string)
    ensures m == Line && c != '\n' ==> Reads([c], true, m, tail, Line)
    ensures m == Line && c == '\n' ==> Reads([c], false, m, tail, Code)
    ensures m == Block && !(c == '*' && tail != "" && tail[0] == '/') ==> Reads([c], true, m, tail, Block)
    ensures m.Quote? && (c != '\\' || tail == "") && c != m.mark ==> Reads([c], false, m, tail, m)
    ensures m.Quote? && c == m.mark && c != '\\' ==> Reads([c], false, m, tail, Code)
    ensures m == Code && !(c == '/' && Opens(tail)) ==>
      Reads([c], false, m, tail, if c in {'\'', '"', '`'} then Quote(c) else Code)
  {
    assert ([c] + tail)[1..] == tail;
  }

  lemma Two(a: char, b: char, m: Mode, tail: string)
    ensures m == Code && a == '/' && b == '/' ==> Reads([a, b], true, m, tail, Line)
    ensures m == Code && a == '/' && b == '*' ==> Reads([a, b], true, m, tail, Block)
    ensures m == Block && a == '*' && b == '/' ==> Reads([a, b], true, m, tail, Code)
    ensures m.Quote? && a == '\\' ==> Reads([a, b], false, m, tail, m)
  {
    assert ([a, b] + tail)[2..] == tail;
  }

  lemma {:induction false} ReadLine(text: string, tail: string)
    requires '\n' !in text
    ensures Reads(text, true, Line, tail, Line)
    decreases |text|
  {
    hide Reads;
    if text == "" {
      Nothing(true, Line, tail);
    } else {
      assert text == [text[0]] + text[1..];
      ReadLine(text[1..], tail);
      One(text[0], Line, text[1..] + tail);
      Both([text[0]], text[1..], true, Line, tail, Line, Line);
    }
  }

  lemma {:induction false} ReadBlock(text: string, tail: string)
    requires NoClose(text) && (tail == "" || tail[0] == '*')
    ensures Reads(text, true, Block, tail, Block)
    decreases |text|
  {
    hide Reads;
    if text == "" {
      Nothing(true, Block, tail);
    } else {
      assert text == [text[0]] + text[1..];
      ReadBlock(text[1..], tail);
      One(text[0], Block, text[1..] + tail);
      Both([text[0]], text[1..], true, Block, tail, Block, Block);
    }
  }

  lemma {:induction false} ReadText(t: Text, quote: char, tail: string)
    requires TextOk(t, quote) && quote in {'\'', '"', '`'} && (!IsClosed(t) ==> tail == "")
    ensures Reads(RenderText(t, quote), false, Quote(quote), tail, if IsClosed(t) then Code else Quote(quote))
    decreases t
  {
    hide Reads;
    var next := if IsClosed(t) then Code else Quote(quote);
    match t
    case Closed => One(quote, Quote(quote), tail);
    case Open => Nothing(false, Quote(quote), tail);
    case OpenEscape => One('\\', Quote(quote), tail);
    case Plain(c, rest) =>
      ReadText(rest, quote, tail);
      One(c, Quote(quote), RenderText(rest, quote) + tail);
      Both([c], RenderText(rest, quote), false, Quote(quote), tail, Quote(quote), next);
    case Escaped(c, rest) =>
      ReadText(rest, quote, tail);
      Two('\\', c, Quote(quote), RenderText(rest, quote) + tail);
      Both(['\\', c], RenderText(rest, quote), false, Quote(quote), tail, Quote(quote), next);
  }

  lemma ReadLineComment(text: string, tail: string)
    requires '\n' !in text
    ensures Reads("//" + text, true, Code, tail, Line)
  {
    hide Reads;
    Two('/', '/', Code, text + tail);
    ReadLine(text, tail);
    Both("//", text, true, Code, tail, Line, Line);
  }

  lemma ReadOpenBlock(text: string, tail: string)
    requires NoClose(text) && (tail == "" || tail[0] == '*')
    ensures Reads("/*" + text, true, Code, tail, Block)
  {
    hide Reads;
    Two('/', '*', Code, text + tail);
    ReadBlock(text, tail);
    Both("/*", text, true, Code, tail, Block, Block);
  }

  lemma ReadBlockComment(text: string, tail: string)
    requires NoClose(text)
    ensures Reads("/*" + text + "*/", true, Code, tail, Code)
  {
    hide Reads;
    ReadOpenBlock(text, "*/" + tail);
    Two('*', '/', Block, tail);
    Both("/*" + text, "*/", true, Code, tail, Block, Code);
  }

  lemma ReadQuoted(quote: char, t: Text, tail: string)
    requires TextOk(t, quote) && quote in {'\'', '"', '`'} && (!IsClosed(t) ==> tail == "")
    ensures Reads([quote] + RenderText(t, quote), false, Code, tail, if IsClosed(t) then Code else Quote(quote))
  {
    hide Reads;
    One(quote, Code, RenderText(t, quote) + tail);
    ReadText(t, quote, tail);
    Both([quote], RenderText(t, quote), false, Code, tail, Quote(quote), if IsClosed(t) then Code else Quote(quote));
  }

  // ---- What the passes do with a piece ----------------------------------------------------------

  lemma KeepHead(c: char, marked: bool, s: string, mask: seq<bool>)
    requires |mask| == |s|
    ensures Keep([c] + s, [marked] + mask) == (if marked && c != '\n' then "" else [c]) + Keep(s, mask)
  {
    assert ([c] + s)[1..] == s && ([marked] + mask)[1..] == mask;
  }

  lemma {:induction false} KeepPiece(piece: string, marked: bool, tail: string, mask: seq<bool>)
    requires |mask| == |tail|
    ensures Keep(piece + tail, Marks(|piece|, marked) + mask) == (if marked then NewlinesOf(piece) else piece) + Keep(tail, mask)
    decreases |piece|
  {
    if piece == "" {
      assert piece + tail == tail && Marks(0, marked) + mask == mask;
    } else {
      hide Keep, NewlinesOf, Marks;
      var c, rest := piece[0], piece[1..];
      KeepPiece(rest, marked, tail, mask);
      KeepHead(c, marked, rest + tail, Marks(|rest|, marked) + mask);
      MarksHead(piece, marked, tail, mask);
      NewlinesHead(piece);
      Regroup(if marked && c != '\n' then "" else [c], if marked then NewlinesOf(rest) else rest, Keep(tail, mask));
    }
  }

  lemma MarksHead(piece: string, marked: bool, tail: string, mask: seq<bool>)
    requires piece != ""
    ensures piece + tail == [piece[0]] + (piece[1..] + tail)
    ensures Marks(|piece|, marked) + mask == [marked] + (Marks(|piece[1..]|, marked) + mask)
  {
    assert Marks(|piece|, marked) == [marked] + Marks(|piece[1..]|, marked);
  }

  lemma NewlinesHead(s: string)
    requires s != ""
    ensures NewlinesOf(s) == (if s[0] == '\n' then [s[0]] else "") + NewlinesOf(s[1..]) && s == [s[0]] + s[1..]
  {
  }

  lemma Regroup(a: string, b: string, c: string)
    ensures a + (b + c) == (a + b) + c
  {
  }

  lemma {:induction false} SpacesAt(s: string)
    ensures |Spaces(s)| == |s| && forall i :: 0 <= i < |s| ==> Spaces(s)[i] == BlankChar(s[i], true)
    decreases |s|
  {
    if s != "" { SpacesAt(s[1..]); }
  }

  lemma OverwriteHead(c: char, marked: bool, s: string, mask: seq<bool>)
    requires |mask| == |s|
    ensures Overwrite([c] + s, [marked] + mask) == [BlankChar(c, marked)] + Overwrite(s, mask)
  {
  }

  lemma {:induction false} OverwritePiece(piece: string, marked: bool, tail: string, mask: seq<bool>)
    requires |mask| == |tail|
    ensures Overwrite(piece + tail, Marks(|piece|, marked) + mask) ==
      (if marked then Spaces(piece) else piece) + Overwrite(tail, mask)
    decreases |piece|
  {
    if piece == "" {
      assert piece + tail == tail && Marks(0, marked) + mask == mask;
    } else {
      hide Overwrite, Spaces, Marks;
      var c, rest := piece[0], piece[1..];
      OverwritePiece(rest, marked, tail, mask);
      OverwriteHead(c, marked, rest + tail, Marks(|rest|, marked) + mask);
      MarksHead(piece, marked, tail, mask);
      SpacesHead(piece);
      Regroup([BlankChar(c, marked)], if marked then Spaces(rest) else rest, Overwrite(tail, mask));
    }
  }

  lemma SpacesHead(s: string)
    requires s != ""
    ensures Spaces(s) == [BlankChar(s[0], true)] + Spaces(s[1..]) && s == [BlankChar(s[0], false)] + s[1..]
  {
  }

  /** A piece read from code on, and what both passes leave of the text from there. */
  lemma PieceOut(piece: string, marked: bool, m: Mode, tail: string, next: Mode)
    requires Reads(piece, marked, m, tail, next)
    ensures StrippedIn(piece + tail, m) == (if marked then NewlinesOf(piece) else piece) + StrippedIn(tail, next)
    ensures BlankedIn(piece + tail, m) == (if marked then Spaces(piece) else piece) + BlankedIn(tail, next)
  {
    hide Mask;
    KeepPiece(piece, marked, tail, Mask(tail, next));
    OverwritePiece(piece, marked, tail, Mask(tail, next));
  }

  lemma EndOut(m: Mode)
    ensures StrippedIn("", m) == "" && BlankedIn("", m) == ""
  {
  }

  lemma {:induction false} NewlinesConcat(s: string, t: string)
    ensures NewlinesOf(s + t) == NewlinesOf(s) + NewlinesOf(t)
    decreases |s|
  {
    if s == "" {
      assert s + t == t;
    } else {
      hide NewlinesOf;
      NewlinesConcat(s[1..], t);
      NewlinesHead(s);
      NewlinesHead(s + t);
      assert (s + t)[1..] == s[1..] + t;
    }
  }

  lemma SpacesConcat(s: string, t: string)
    ensures Spaces(s + t) == Spaces(s) + Spaces(t)
  {
    hide Spaces;
    SpacesAt(s);
    SpacesAt(t);
    SpacesAt(s + t);
  }

  lemma {:induction false} NoNewlines(s: string)
    requires '\n' !in s
    ensures NewlinesOf(s) == ""
    decreases |s|
  {
    if s != "" { NoNewlines(s[1..]); }
  }

  lemma Delimiters()
    ensures NewlinesOf("//") == NewlinesOf("/*") == NewlinesOf("*/") == ""
    ensures Spaces("//") == Spaces("/*") == Spaces("*/") == "  "
  {
    NoNewlines("//");
    NoNewlines("/*");
    NoNewlines("*/");
    SpacesAt("//");
    SpacesAt("/*");
    SpacesAt("*/");
  }

  // ---- The two passes compute the grammar's answer --------------------------------------------------

  ghost predicate Answers(x: Source) {
    StrippedIn(Render(x), Code) == WithoutComments(x) && BlankedIn(Render(x), Code) == WithBlankComments(x)
  }

  lemma LineAnswer(text: string, rest: Source)
    requires '\n' !in text && Answers(rest)
    ensures Answers(LineComment(text, rest))
  {
    hide StrippedIn, BlankedIn, NewlinesOf, Spaces;
    var tail := "\n" + Render(rest);
    ReadLineComment(text, tail);
    PieceOut("//" + text, true, Code, tail, Line);
    One('\n', Line, Render(rest));
    PieceOut("\n", false, Line, Render(rest), Code);
    NewlinesConcat("//", text);
    SpacesConcat("//", text);
    Delimiters();
    NoNewlines(text);
    assert Render(LineComment(text, rest)) == "//" + text + tail;
    assert ("  " + Spaces(text)) + ("\n" + WithBlankComments(rest)) == "  " + Spaces(text) + "\n" + WithBlankComments(rest);
  }

  lemma LastLineAnswer(text: string)
    requires '\n' !in text
    ensures Answers(LastLine(text))
  {
    hide StrippedIn, BlankedIn, NewlinesOf, Spaces;
    ReadLineComment(text, "");
    PieceOut("//" + text, true, Code, "", Line);
    EndOut(Line);
    NewlinesConcat("//", text);
    SpacesConcat("//", text);
    Delimiters();
    NoNewlines(text);
    assert "//" + text + "" == "//" + text;
  }

  lemma BlockAnswer(text: string, rest: Source)
    requires NoClose(text) && Answers(rest)
    ensures Answers(BlockComment(text, rest))
  {
    hide StrippedIn, BlankedIn, NewlinesOf, Spaces;
    ReadBlockComment(text, Render(rest));
    PieceOut("/*" + text + "*/", true, Code, Render(rest), Code);
    NewlinesConcat("/*" + text, "*/");
    SpacesConcat("/*" + text, "*/");
    NewlinesConcat("/*", text);
    SpacesConcat("/*", text);
    Delimiters();
    assert "" + NewlinesOf(text) + "" == NewlinesOf(text);
  }

  lemma LastBlockAnswer(text: string)
    requires NoClose(text)
    ensures Answers(LastBlock(text))
  {
    hide StrippedIn, BlankedIn, NewlinesOf, Spaces;
    ReadOpenBlock(text, "");
    PieceOut("/*" + text, true, Code, "", Block);
    EndOut(Block);
    NewlinesConcat("/*", text);
    SpacesConcat("/*", text);
    Delimiters();
    assert "/*" + text + "" == "/*" + text;
  }

  lemma QuotedAnswer(quote: char, body: Text, rest: Source)
    requires quote in {'\'', '"', '`'} && TextOk(body, quote) && IsClosed(body) && Answers(rest)
    ensures Answers(Quoted(quote, body, rest))
  {
    hide StrippedIn, BlankedIn, RenderText;
    ReadQuoted(quote, body, Render(rest));
    PieceOut([quote] + RenderText(body, quote), false, Code, Render(rest), Code);
  }

  lemma LastQuotedAnswer(quote: char, body: Text)
    requires quote in {'\'', '"', '`'} && TextOk(body, quote) && !IsClosed(body)
    ensures Answers(LastQuoted(quote, body))
  {
    hide StrippedIn, BlankedIn, RenderText;
    var piece := [quote] + RenderText(body, quote);
    ReadQuoted(quote, body, "");
    PieceOut(piece, false, Code, "", Quote(quote));
    EndOut(Quote(quote));
    assert piece + "" == piece;
  }

  lemma ChrAnswer(c: char, rest: Source)
    requires Ok(Chr(c, rest)) && Answers(rest)
    ensures Answers(Chr(c, rest))
  {
    hide StrippedIn, BlankedIn, Ok;
    assert c !in {'\'', '"', '`'} && (c == '/' ==> !Opens(Render(rest))) by { ChrOk(c, rest); }
    One(c, Code, Render(rest));
    PieceOut([c], false, Code, Render(rest), Code);
  }

  lemma ChrOk(c: char, rest: Source)
    requires Ok(Chr(c, rest))
    ensures c !in {'\'', '"', '`'} && (c == '/' ==> !Opens(Render(rest))) && Ok(rest)
  {
  }

  /**
   * Stripping removes exactly the comments, newlines aside, and blanking overwrites exactly them;
   * strings in any of the three quotes stay as they are, whatever they hold.
   */
  lemma LexersFollowGrammar(x: Source)
    requires Ok(x)
    ensures Stripped(Render(x)) == WithoutComments(x)
    ensures Blanked(Render(x)) == WithBlankComments(x)
  {
    SourceAnswer(x);
  }

  lemma {:induction false} SourceAnswer(x: Source)
    requires Ok(x)
    ensures Answers(x)
    decreases x
  {
    match x
    case End => EndOut(Code);
    case Chr(c, rest) =>
      SourceAnswer(rest);
      hide Answers;
      ChrAnswer(c, rest);
    case LineComment(text, rest) =>
      SourceAnswer(rest);
      hide Answers;
      LineAnswer(text, rest);
    case LastLine(text) =>
      hide Answers;
      LastLineAnswer(text);
    case BlockComment(text, rest) =>
      SourceAnswer(rest);
      hide Answers;
      BlockAnswer(text, rest);
    case LastBlock(text) =>
      hide Answers;
      LastBlockAnswer(text);
    case Quoted(quote, body, rest) =>
      SourceAnswer(rest);
      hide Answers;
      QuotedAnswer(quote, body, rest);
    case LastQuoted(quote, body) =>
      hide Answers;
      LastQuotedAnswer(quote, body);
  }

  // ---- Every text has the structure --------------------------------------------------------------------

  /** Cuts at the first newline, if there is one. */
  lemma {:induction false} CutLine(s: string) returns (text: string, tail: string)
    ensures s == text + tail && '\n' !in text && (tail == "" || tail[0] == '\n')
    decreases |s|
  {
    if s == "" || s[0] == '\n' {
      text, tail := "", s;
    } else {
      text, tail := CutLine(s[1..]);
      text := [s[0]] + text;
      assert s == [s[0]] + s[1..];
    }
  }

  /** Cuts at the first end of a block comment, if there is one. */
  lemma {:induction false} CutBlock(s: string) returns (text: string, tail: string)
    ensures s == text + tail && NoClose(text) && (tail == "" || (|tail| > 1 && tail[0] == '*' && tail[1] == '/'))
    decreases |s|
  {
    if s == "" || (|s| > 1 && s[0] == '*' && s[1] == '/') {
      text, tail := "", s;
    } else {
      text, tail := CutBlock(s[1..]);
      assert s == [s[0]] + s[1..];
      assert text != "" ==> text[0] == s[1];
      text := [s[0]] + text;
    }
  }

  /** Cuts behind the closing quote, if there is one. */
  lemma {:induction false} CutText(s: string, quote: char) returns (t: Text, tail: string)
    requires quote in {'\'', '"', '`'}
    ensures TextOk(t, quote) && s == RenderText(t, quote) + tail && (!IsClosed(t) ==> tail == "")
    decreases |s|
  {
    if s == "" {
      t, tail := Open, "";
    } else if s[0] == '\\' {
      if |s| == 1 {
        t, tail := OpenEscape, "";
      } else {
        var rest;
        rest, tail := CutText(s[2..], quote);
        t := Escaped(s[1], rest);
        assert s == ['\\', s[1]] + s[2..];
      }
    } else if s[0] == quote {
      t, tail := Closed, s[1..];
    } else {
      var rest;
      rest, tail := CutText(s[1..], quote);
      t := Plain(s[0], rest);
      assert s == [s[0]] + s[1..];
    }
  }

  /** No text is outside the grammar, so the two passes are described on all inputs. */
  lemma {:induction false} EveryTextHasStructure(s: string) returns (x: Source)
    ensures Ok(x) && Render(x) == s
    decreases |s|
  {
    if s == "" {
      x := End;
    } else if |s| > 1 && s[0] == '/' && s[1] == '/' {
      x := LineStructure(s);
    } else if |s| > 1 && s[0] == '/' && s[1] == '*' {
      x := BlockStructure(s);
    } else if s[0] in {'\'', '"', '`'} {
      var body, tail := CutText(s[1..], s[0]);
      assert s == [s[0]] + s[1..];
      if IsClosed(body) {
        var rest := EveryTextHasStructure(tail);
        x := Quoted(s[0], body, rest);
      } else {
        x := LastQuoted(s[0], body);
        assert RenderText(body, s[0]) + tail == RenderText(body, s[0]);
      }
    } else {
      var rest := EveryTextHasStructure(s[1..]);
      x := Chr(s[0], rest);
      assert s == [s[0]] + s[1..];
    }
  }

  lemma {:induction false} LineStructure(s: string) returns (x: Source)
    requires |s| > 1 && s[0] == '/' && s[1] == '/'
    ensures Ok(x) && Render(x) == s
    decreases |s|, 0
  {
    var text, tail := CutLine(s[2..]);
    assert s == "//" + s[2..];
    if tail == "" {
      x := LastLine(text);
      assert text + tail == text;
    } else {
      var rest := EveryTextHasStructure(tail[1..]);
      x := LineComment(text, rest);
      assert tail == "\n" + tail[1..];
    }
  }

  lemma {:induction false} BlockStructure(s: string) returns (x: Source)
    requires |s| > 1 && s[0] == '/' && s[1] == '*'
    ensures Ok(x) && Render(x) == s
    decreases |s|, 0
  {
    var text, tail := CutBlock(s[2..]);
    assert s == "/*" + s[2..];
    if tail == "" {
      x := LastBlock(text);
      assert text + tail == text;
    } else {
      var rest := EveryTextHasStructure(tail[2..]);
      x := BlockComment(text, rest);
      assert tail == "*/" + tail[2..];
    }
  }
}
