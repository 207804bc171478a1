/**
 * Two comment removers written for different audits: one deletes comments while
 * copying the text, the other blanks them in a character array. Both keep strings.
 */
module CommentLexers {

  // ---- Which characters belong to comments ------------------------------------------------

  datatype Mode = Code | Line | Block | Quote(mark: char)

  function Rest(s: string, k: nat): string { if k <= |s| then s[k..] else "" }

  predicate Starts(s: string, a: char, b: char) { |s| > 1 && s[0] == a && s[1] == b }

  predicate IsQuote(c: char) { c == '"' || c == '\'' || c == '`' }

  /** Marks every character of `s` that lies in a comment, reading from mode `m`. */
  function Mask(s: string, m: Mode): (mask: seq<bool>)
    ensures |mask| == |s|
    decreases |s|
  {
    if s == "" then []
    else match m
      case Line => if s[0] == '\n' then [false] + Mask(s[1..], Code) else [true] + Mask(s[1..], Line)
      case Block => if Starts(s, '*', '/') then [true, true] + Mask(s[2..], Code) else [true] + Mask(s[1..], Block)
      case Quote(q) =>
        if s[0] == '\\' && |s| > 1 then [false, false] + Mask(s[2..], m)
        else [false] + Mask(s[1..], if s[0] == q then Code else m)
      case Code =>
        if Starts(s, '/', '/') then [true, true] + Mask(s[2..], Line)
        else if Starts(s, '/', '*') then [true, true] + Mask(s[2..], Block)
        else [false] + Mask(s[1..], if IsQuote(s[0]) then Quote(s[0]) else Code)
  }

  /** Deletes the marked characters, except newlines. */
  function Keep(s: string, mask: seq<bool>): string
    requires |mask| == |s|
  {
    if s == "" then ""
    else (if mask[0] && s[0] != '\n' then "" else [s[0]]) + Keep(s[1..], mask[1..])
  }

  function BlankChar(c: char, marked: bool): char { if marked && c != '\n' then ' ' else c }

  /** Replaces the marked characters, except newlines, by spaces. */
  function Overwrite(s: string, mask: seq<bool>): (t: string)
    requires |mask| == |s|
    ensures |t| == |s| && forall i :: 0 <= i < |s| ==> t[i] == BlankChar(s[i], mask[i])
  {
    seq(|s|, i requires 0 <= i < |s| => BlankChar(s[i], mask[i]))
  }

  function Stripped(s: string): string { Keep(s, Mask(s, Code)) }

  function Blanked(s: string): string { Overwrite(s, Mask(s, Code)) }

  // ---- The deleting lexer ---------------------------------------------------------------

  ghost function Remaining(s: string, i: nat, m: Mode): string { Keep(Rest(s, i), Mask(Rest(s, i), m)) }

  /** What one step of the deleting lexer copies, how far it goes, and the mode it is then in. */
  datatype Move = Move(emit: string, width: nat, next: Mode)

  ghost function MoveAt(s: string, i: nat, m: Mode): Move
    requires i < |s|
  {
    var c := s[i];
    var slashSlash := c == '/' && i + 1 < |s| && s[i + 1] == '/';
    var slashStar := c == '/' && i + 1 < |s| && s[i + 1] == '*';
    var starSlash := c == '*' && i + 1 < |s| && s[i + 1] == '/';
    match m
    case Line => if c == '\n' then Move([c], 1, Code) else Move("", 1, Line)
    case Block =>
      if starSlash then Move("", 2, Code) else Move(if c == '\n' then [c] else "", 1, Block)
    case Quote(q) =>
      if c == '\\' then Move(if i + 1 < |s| then [c, s[i + 1]] else [c], 2, m)
      else Move([c], 1, if c == q then Code else m)
    case Code =>
      if slashSlash then Move("", 2, Line)
      else if slashStar then Move("", 2, Block)
      else Move([c], 1, if IsQuote(c) then Quote(c) else Code)
  }

  lemma RemainingStep(s: string, i: nat, m: Mode)
    requires i < |s|
    ensures var move := MoveAt(s, i, m); Remaining(s, i, m) == move.emit + Remaining(s, i + move.width, move.next)
  {
    var t := Rest(s, i);
    assert t[1..] == Rest(s, i + 1);
    if |t| > 1 {
      assert t[2..] == Rest(s, i + 2);
      KeepTwo(t, Mask(t, m));
    }
  }

  lemma KeepTwo(s: string, mask: seq<bool>)
    requires |mask| == |s| > 1
    ensures Keep(s, mask) ==
      (if mask[0] && s[0] != '\n' then "" else [s[0]]) +
      (if mask[1] && s[1] != '\n' then "" else [s[1]]) + Keep(s[2..], mask[2..])
  {
    assert s[1..][1..] == s[2..] && mask[1..][1..] == mask[2..];
  }

  method StripComments(src: string) returns (out: string)
    ensures out == Stripped(src)
  {
    hide Remaining, Stripped, Rest;
    out := "";
    var i := 0;
    var n := |src|;
    var inLine, inBlock, inSingle, inDouble, inTemplate := false, false, false, false, false;
    ghost var m := Code;
    RemainingEnds(src);
    while i < n
      invariant i <= n + 1
      invariant inLine == m.Line? && inBlock == m.Block?
      invariant inSingle == (m == Quote('\'')) && inDouble == (m == Quote('"')) && inTemplate == (m == Quote('`'))
      invariant m.Quote? ==> IsQuote(m.mark)
      invariant out + Remaining(src, i, m) == Stripped(src)
      decreases n - i
    {
      var c := src[i];
      var hasNext := i + 1 < n;
      ghost var move := MoveAt(src, i, m);
      RemainingStep(src, i, m);
      assert (out + move.emit) + Remaining(src, i + move.width, move.next) == Stripped(src);
      m := move.next;
      ghost var before := out;
      assert before + "" == before;
      if inLine {
        if c == '\n' {
          inLine := false;
          out := out + [c];
        }
        i := i + 1;
        continue;
      }
      if inBlock {
        if c == '*' && hasNext && src[i + 1] == '/' {
          inBlock := false;
          i := i + 2;
          continue;
        }
        if c == '\n' { out := out + [c]; }
        i := i + 1;
        continue;
      }
      if inSingle {
        out := out + [c];
        if c == '\\' {
          out := out + if hasNext then [src[i + 1]] else "";
          assert out == before + move.emit;
          i := i + 2;
          continue;
        }
        if c == '\'' { inSingle := false; }
        i := i + 1;
        continue;
      }
      if inDouble {
        out := out + [c];
        if c == '\\' {
          out := out + if hasNext then [src[i + 1]] else "";
          assert out == before + move.emit;
          i := i + 2;
          continue;
        }
        if c == '"' { inDouble := false; }
        i := i + 1;
        continue;
      }
      if inTemplate {
        out := out + [c];
        if c == '\\' {
          out := out + if hasNext then [src[i + 1]] else "";
          assert out == before + move.emit;
          i := i + 2;
          continue;
        }
        if c == '`' { inTemplate := false; }
        i := i + 1;
        continue;
      }
      if c == '/' && hasNext && src[i + 1] == '/' {
        inLine := true;
        i := i + 2;
        continue;
      }
      if c == '/' && hasNext && src[i + 1] == '*' {
        inBlock := true;
        i := i + 2;
        continue;
      }
      if c == '\'' {
        inSingle := true;
        out := out + [c];
        i := i + 1;
        continue;
      }
      if c == '"' {
        inDouble := true;
        out := out + [c];
        i := i + 1;
        continue;
      }
      if c == '`' {
        inTemplate := true;
        out := out + [c];
        i := i + 1;
        continue;
      }
      out := out + [c];
      i := i + 1;
    }
  }

  lemma RemainingEnds(s: string)
    ensures Remaining(s, 0, Code) == Stripped(s)
    ensures forall i: nat, m :: i >= |s| ==> Remaining(s, i, m) == ""
  {
    assert Rest(s, 0) == s;
  }

  // ---- The blanking lexer -----------------------------------------------------------------

  /** The rest of the mask, read from position `i` in mode `m`; positions past the end are allowed. */
  ghost predicate MaskFrom(s: string, mask: seq<bool>, i: nat, m: Mode) {
    |mask| == |s| && (i < |s| ==> mask[i..] == Mask(s[i..], m))
  }

  lemma MaskStep(s: string, mask: seq<bool>, i: nat, m: Mode)
    requires i < |s| && MaskFrom(s, mask, i, m)
    ensures
      var c := s[i];
      var pair := i + 1 < |s|;
      match m
      case Line => if c == '\n' then !mask[i] && MaskFrom(s, mask, i + 1, Code) else mask[i] && MaskFrom(s, mask, i + 1, Line)
      case Block =>
        if c == '*' && pair && s[i + 1] == '/' then mask[i] && mask[i + 1] && MaskFrom(s, mask, i + 2, Code)
        else mask[i] && MaskFrom(s, mask, i + 1, Block)
      case Quote(q) =>
        if c == '\\' then !mask[i] && (pair ==> !mask[i + 1]) && MaskFrom(s, mask, i + 2, m)
        else !mask[i] && MaskFrom(s, mask, i + 1, if c == q then Code else m)
      case Code =>
        if c == '/' && pair && s[i + 1] == '/' then mask[i] && mask[i + 1] && MaskFrom(s, mask, i + 2, Line)
        else if c == '/' && pair && s[i + 1] == '*' then mask[i] && mask[i + 1] && MaskFrom(s, mask, i + 2, Block)
        else !mask[i] && MaskFrom(s, mask, i + 1, if IsQuote(c) then Quote(c) else Code)
  {
    var t := s[i..];
    var k := mask[i..];
    assert k == Mask(t, m);
    assert k[0] == mask[i] && t[1..] == s[i + 1..] && k[1..] == mask[i + 1..];
    if i + 1 < |s| {
      assert k[1] == mask[i + 1] && t[2..] == s[i + 2..] && k[2..] == mask[i + 2..];
    }
  }

  /** Overwrites the non-newline characters in a range; the range may reach past the end. */
  method Blank(out: array<char>, from: nat, to: nat)
    requires from <= to
    modifies out
    ensures forall k :: 0 <= k < out.Length ==> out[k] == BlankChar(old(out[k]), from <= k < to)
  {
    var j := from;
    while j < to && j < out.Length
      invariant from <= j && (from < j ==> j <= out.Length && j <= to)
      invariant forall k :: 0 <= k < out.Length ==> out[k] == BlankChar(old(out[k]), from <= k < j)
    {
      if out[j] != '\n' { out[j] := ' '; }
      j := j + 1;
    }
  }

  /** Finished up to `i`, untouched from there on. */
  ghost predicate BlankedTo(out: seq<char>, src: string, mask: seq<bool>, i: nat) {
    && |out| == |src| == |mask|
    && forall k :: 0 <= k < |src| ==> out[k] == if k < i then BlankChar(src[k], mask[k]) else src[k]
  }

  /** Extending the finished part over a stretch that is marked throughout, or nowhere. */
  lemma BlankedRange(before: seq<char>, after: seq<char>, src: string, mask: seq<bool>, from: nat, to: nat, marked: bool)
    requires BlankedTo(before, src, mask, from) && from <= to && |after| == |before|
    requires forall k :: from <= k < to && k < |src| ==> mask[k] == marked
    requires forall k :: 0 <= k < |src| ==> after[k] == BlankChar(before[k], marked && from <= k < to)
    ensures BlankedTo(after, src, mask, to)
  {
  }

  method BlankComments(src: string) returns (result: string)
    ensures result == Blanked(src)
  {
    hide MaskFrom, Mask, BlankedTo;
    var out := new char[|src|](k requires 0 <= k < |src| => src[k]);
    ghost var mask := Mask(src, Code);
    MaskStarts(src, out[..]);
    var i := 0;
    while i < |src|
      invariant fresh(out) && out.Length == |src|
      invariant MaskFrom(src, mask, i, Code) && BlankedTo(out[..], src, mask, i)
      decreases |src| - i
    {
      var ch := src[i];
      ghost var before := out[..];
      MaskStep(src, mask, i, Code);
      if IsQuote(ch) {
        ghost var start := i;
        i := SkipQuoted(src, mask, i, ch);
        BlankedRange(out[..], out[..], src, mask, start, i, false);
        continue;
      }
      if ch == '/' && i + 1 < |src| && src[i + 1] == '/' {
        var start := i;
        ghost var past := i + 2;
        while i < |src| && src[i] != '\n'
          invariant start <= i <= |src| && out[..] == before
          invariant i < past ==> i <= start + 1
          invariant past <= |src| && (past <= i ==> MaskFrom(src, mask, i, Line))
          invariant i < past ==> MaskFrom(src, mask, past, Line)
          invariant forall k :: start <= k < i ==> mask[k]
        {
          if past <= i { MaskStep(src, mask, i, Line); }
          i := i + 1;
        }
        LineEnds(src, mask, i);
        Blank(out, start, i);
        BlankedRange(before, out[..], src, mask, start, i, true);
        continue;
      }
      if ch == '/' && i + 1 < |src| && src[i + 1] == '*' {
        var start := i;
        i := i + 2;
        while i < |src| && !(src[i] == '*' && i + 1 < |src| && src[i + 1] == '/')
          invariant start + 2 <= i <= |src| && out[..] == before && MaskFrom(src, mask, i, Block)
          invariant forall k :: start <= k < i ==> mask[k]
        {
          MaskStep(src, mask, i, Block);
          i := i + 1;
        }
        if i < |src| { MaskStep(src, mask, i, Block); }
        MaskEnds(src, mask, i + 2, Code);
        i := i + 2;
        Blank(out, start, if i < |src| then i else |src|);
        BlankedRange(before, out[..], src, mask, start, i, true);
        continue;
      }
      BlankedRange(out[..], out[..], src, mask, i, i + 1, false);
      i := i + 1;
    }
    result := out[..];
    BlankedAll(result, src, mask, i);
  }

  lemma BlankedAll(out: seq<char>, src: string, mask: seq<bool>, i: nat)
    requires BlankedTo(out, src, mask, i) && i >= |src|
    ensures out == Overwrite(src, mask)
  {
  }

  /** Moves past a quoted string, whose characters are all unmarked. */
  method SkipQuoted(src: string, ghost mask: seq<bool>, start: nat, quote: char) returns (i: nat)
    requires start < |src| && IsQuote(quote) && |mask| == |src|
    requires !mask[start] && MaskFrom(src, mask, start + 1, Quote(quote))
    ensures start < i && MaskFrom(src, mask, i, Code)
    ensures forall k :: start <= k < i && k < |src| ==> !mask[k]
  {
    hide Mask, MaskFrom;
    i := start + 1;
    while i < |src| && src[i] != quote
      invariant start < i && MaskFrom(src, mask, i, Quote(quote))
      invariant forall k :: start <= k < i && k < |src| ==> !mask[k]
      decreases |src| - i
    {
      MaskStep(src, mask, i, Quote(quote));
      if src[i] == '\\' { i := i + 1; }
      i := i + 1;
    }
    if i < |src| { MaskStep(src, mask, i, Quote(quote)); }
    MaskEnds(src, mask, i + 1, Code);
    i := i + 1;
  }

  lemma MaskStarts(s: string, out: seq<char>)
    ensures MaskFrom(s, Mask(s, Code), 0, Code)
    ensures out == s ==> BlankedTo(out, s, Mask(s, Code), 0)
  {
    assert s[0..] == s && Mask(s, Code)[0..] == Mask(s, Code);
  }

  lemma MaskEnds(s: string, mask: seq<bool>, i: nat, m: Mode)
    requires |mask| == |s|
    ensures i >= |s| ==> MaskFrom(s, mask, i, m)
  {
  }

  /** At a newline (or the end) reading on in code and reading on in a line comment agree. */
  lemma LineEnds(s: string, mask: seq<bool>, i: nat)
    requires MaskFrom(s, mask, i, Line) && (i < |s| ==> s[i] == '\n')
    ensures MaskFrom(s, mask, i, Code)
  {
    assert i < |s| ==> s[i..][0] == '\n';
  }

  // ---- The two agree, and neither finds anything on a second pass ----------------------------

  /** Deleting the marked characters from the blanked text gives the stripped text: the same characters go. */
  lemma {:induction false} DeleteAfterBlanking(s: string, mask: seq<bool>)
    requires |mask| == |s|
    ensures Keep(Overwrite(s, mask), mask) == Keep(s, mask)
    decreases |s|
  {
    if s != "" {
      assert Overwrite(s, mask)[1..] == Overwrite(s[1..], mask[1..]);
      DeleteAfterBlanking(s[1..], mask[1..]);
    }
  }

  lemma LexersAgree(s: string)
    ensures Keep(Blanked(s), Mask(s, Code)) == Stripped(s)
    ensures forall i :: 0 <= i < |s| && Blanked(s)[i] != s[i] ==> Mask(s, Code)[i] && Blanked(s)[i] == ' '
  {
    DeleteAfterBlanking(s, Mask(s, Code));
  }

  ghost predicate Unmarked(mask: seq<bool>) { forall i :: 0 <= i < |mask| ==> !mask[i] }

  /** The mode in which a second pass meets what the first pass left of text read in mode `m`. */
  function Second(m: Mode): Mode { if m.Line? || m.Block? then Code else m }

  ghost function StrippedIn(s: string, m: Mode): string { Keep(s, Mask(s, m)) }

  ghost function BlankedIn(s: string, m: Mode): string { Overwrite(s, Mask(s, m)) }

  lemma UnmarkedCons(s: string, m: Mode)
    requires s != "" && (m == Code ==> !Starts(s, '/', '/') && !Starts(s, '/', '*'))
    requires m.Quote? && s[0] == '\\' ==> |s| == 1
    requires m.Code? || m.Quote?
    requires Unmarked(Mask(s[1..], Next(s[0], m)))
    ensures Unmarked(Mask(s, m))
  {
  }

  function Next(c: char, m: Mode): Mode {
    match m
    case Code => if IsQuote(c) then Quote(c) else Code
    case Quote(q) => if c == q then Code else m
    case _ => m
  }

  lemma UnmarkedEscape(s: string, m: Mode)
    requires m.Quote? && |s| > 1 && s[0] == '\\' && Unmarked(Mask(s[2..], m))
    ensures Unmarked(Mask(s, m))
  {
  }

  /** In code that does not open a comment the first character survives both passes. */
  lemma FirstSurvives(s: string)
    requires s != "" && !Starts(s, '/', '/') && !Starts(s, '/', '*')
    ensures StrippedIn(s, Code) != "" && StrippedIn(s, Code)[0] == s[0]
    ensures BlankedIn(s, Code)[0] == s[0]
  {
  }

  lemma StripUnfold(s: string, m: Mode)
    requires s != ""
    ensures StrippedIn(s, m) == MoveAt(s, 0, m).emit + StrippedIn(Rest(s, MoveAt(s, 0, m).width), MoveAt(s, 0, m).next)
  {
    RemainingStep(s, 0, m);
    assert Rest(s, 0) == s;
  }

  /** After stripping, a second reading marks nothing. */
  lemma {:induction false} NothingLeftToStrip(s: string, m: Mode)
    ensures Unmarked(Mask(StrippedIn(s, m), Second(m)))
    decreases |s|
  {
    hide StrippedIn, Unmarked, Mask;
    if s == "" {
      EmptyUnmarked(m);
      return;
    }
    var move := MoveAt(s, 0, m);
    var t := Rest(s, move.width);
    NothingLeftToStrip(t, move.next);
    StripUnfold(s, m);
    var out := StrippedIn(s, m);
    var rest := StrippedIn(t, move.next);
    if move.emit == "" {
      assert out == rest;
    } else if |move.emit| == 1 {
      assert out[1..] == rest && out[0] == s[0];
      if m.Code? && s[0] == '/' && t != "" {
        FirstSurvives(t);
      } else if t == "" {
        EmptyStripped(move.next);
      }
      UnmarkedCons(out, Second(m));
    } else {
      assert out[2..] == rest;
      UnmarkedEscape(out, m);
    }
  }

  lemma EmptyStripped(m: Mode)
    ensures StrippedIn("", m) == ""
  {
  }

  lemma EmptyUnmarked(m: Mode)
    ensures Unmarked(Mask(StrippedIn("", m), Second(m)))
  {
  }

  lemma {:induction false} KeepUnmarked(s: string, mask: seq<bool>)
    requires |mask| == |s| && Unmarked(mask)
    ensures Keep(s, mask) == s
    decreases |s|
  {
    if s != "" {
      KeepUnmarked(s[1..], mask[1..]);
    }
  }

  /** Both lexers leave already cleaned text alone, whichever of them cleaned it. */
  lemma StrippedIsClean(s: string)
    ensures Stripped(Stripped(s)) == Stripped(s) && Blanked(Stripped(s)) == Stripped(s)
  {
    NothingLeftToStrip(s, Code);
    var t := Stripped(s);
    assert t == StrippedIn(s, Code);
    KeepUnmarked(t, Mask(t, Code));
    assert forall i :: 0 <= i < |t| ==> Blanked(t)[i] == t[i];
  }

  lemma BlankUnfold(s: string, m: Mode)
    requires s != ""
    ensures
      var move := MoveAt(s, 0, m);
      var k := if move.width <= |s| then move.width else |s|;
      var out := BlankedIn(s, m);
      && |out| == |s|
      && out[k..] == BlankedIn(Rest(s, move.width), move.next)
      && forall i :: 0 <= i < k ==>
        out[i] == BlankChar(s[i], (m == Line && s[i] != '\n') || m == Block || (m == Code && move.width == 2))
  {
    var move := MoveAt(s, 0, m);
    var k := if move.width <= |s| then move.width else |s|;
    var t := Rest(s, move.width);
    assert Mask(s, m)[k..] == Mask(t, move.next);
    assert forall i :: 0 <= i < |t| ==> t[i] == s[k + i];
  }

  /** After blanking, a second reading marks nothing either. */
  lemma {:induction false} NothingLeftToBlank(s: string, m: Mode)
    ensures Unmarked(Mask(BlankedIn(s, m), Second(m)))
    decreases |s|
  {
    hide BlankedIn, Unmarked, Mask, StrippedIn;
    if s == "" {
      EmptyBlanked(m);
      return;
    }
    var move := MoveAt(s, 0, m);
    var t := Rest(s, move.width);
    NothingLeftToBlank(t, move.next);
    BlankUnfold(s, m);
    var out := BlankedIn(s, m);
    if move.width == 1 || |s| == 1 {
      if m.Code? && s[0] == '/' && t != "" {
        FirstSurvives(t);
      }
      UnmarkedCons(out, Second(m));
    } else if m.Quote? {
      UnmarkedEscape(out, m);
    } else {
      var rest := BlankedIn(t, move.next);
      assert out[0] == ' ' && out[1] == ' ' && out[1..][1..] == rest;
      UnmarkedCons(out[1..], Code);
      UnmarkedCons(out, Code);
    }
  }

  lemma EmptyBlanked(m: Mode)
    ensures Unmarked(Mask(BlankedIn("", m), Second(m)))
  {
  }

  lemma BlankedIsClean(s: string)
    ensures Blanked(Blanked(s)) == Blanked(s) && Stripped(Blanked(s)) == Blanked(s)
  {
    NothingLeftToBlank(s, Code);
    var t := Blanked(s);
    assert t == BlankedIn(s, Code);
    KeepUnmarked(t, Mask(t, Code));
    assert forall i :: 0 <= i < |t| ==> Blanked(t)[i] == t[i];
  }

  // ---- Line numbers -------------------------------------------------------------------------

  function Newlines(s: string): nat {
    if s == "" then 0 else (if s[0] == '\n' then 1 else 0) + Newlines(s[1..])
  }

  /** 1-based line of an offset. */
  function LineOf(s: string, offset: nat): nat
    requires offset <= |s|
  {
    1 + Newlines(s[..offset])
  }

  lemma {:induction false} NewlinesSplit(s: string, i: nat)
    requires i < |s|
    ensures Newlines(s[..i + 1]) == Newlines(s[..i]) + if s[i] == '\n' then 1 else 0
    decreases i
  {
    if i == 0 {
      assert s[..1][1..] == "" && s[..0] == "";
    } else {
      assert s[..i + 1][1..] == s[1..][..i] && s[..i][1..] == s[1..][..i - 1];
      NewlinesSplit(s[1..], i - 1);
    }
  }

  /** Where the newlines before the offset are. */
  ghost function NewlinePlaces(s: string, offset: nat): set<int> {
    set i | 0 <= i < |s| && i < offset && s[i] == '\n'
  }

  /** The line is one more than the number of newlines before the offset. */
  lemma {:induction false} LineCountsNewlines(s: string, offset: nat)
    requires offset <= |s|
    ensures LineOf(s, offset) == 1 + |NewlinePlaces(s, offset)|
    decreases offset
  {
    if offset == 0 {
      assert s[..0] == "";
      assert NewlinePlaces(s, 0) == {};
    } else {
      var n := offset - 1;
      LineCountsNewlines(s, n);
      NewlinesSplit(s, n);
      assert NewlinePlaces(s, offset) == NewlinePlaces(s, n) + if s[n] == '\n' then {n} else {};
    }
  }

  /** The original offset of the `j`-th kept character. */
  function Origin(s: string, mask: seq<bool>, j: nat): (i: nat)
    requires |mask| == |s| && j < |Keep(s, mask)|
    ensures i < |s| && Keep(s, mask)[j] == s[i] && (mask[i] ==> s[i] == '\n')
    decreases |s|
  {
    if mask[0] && s[0] != '\n' then 1 + Origin(s[1..], mask[1..], j)
    else if j == 0 then 0
    else 1 + Origin(s[1..], mask[1..], j - 1)
  }

  /** A reported line is the line of the same character in the original text. */
  lemma {:induction false} LinesSurviveKeeping(s: string, mask: seq<bool>, j: nat)
    requires |mask| == |s| && j < |Keep(s, mask)|
    ensures LineOf(Keep(s, mask), j) == LineOf(s, Origin(s, mask, j))
    ensures forall k :: 0 <= k < j ==> Origin(s, mask, k) < Origin(s, mask, j)
    decreases |s|
  {
    var out := Keep(s, mask);
    var rest := Keep(s[1..], mask[1..]);
    var i := Origin(s, mask, j);
    if mask[0] && s[0] != '\n' {
      LinesSurviveKeeping(s[1..], mask[1..], j);
      assert out == rest;
      assert s[..i][1..] == s[1..][..i - 1];
    } else if j > 0 {
      LinesSurviveKeeping(s[1..], mask[1..], j - 1);
      assert s[..i][1..] == s[1..][..i - 1];
      assert out[..j][1..] == rest[..j - 1];
    } else {
      assert s[..0] == "" && out[..0] == "";
    }
  }

  /** Write sites found in stripped text are reported on their original lines, in their original order. */
  lemma StrippedLinesAreOriginal(s: string, j: nat)
    requires j < |Stripped(s)|
    ensures LineOf(Stripped(s), j) == LineOf(s, Origin(s, Mask(s, Code), j))
    ensures forall k :: 0 <= k < j ==> Origin(s, Mask(s, Code), k) < Origin(s, Mask(s, Code), j)
  {
    LinesSurviveKeeping(s, Mask(s, Code), j);
  }

  /** Blanking moves nothing: every offset keeps its line. */
  lemma {:induction false} BlankedLinesAreOriginal(s: string, i: nat)
    requires i <= |s|
    ensures LineOf(Blanked(s), i) == LineOf(s, i)
    decreases i
  {
    if i == 0 {
      assert s[..0] == "" && Blanked(s)[..0] == "";
    } else {
      BlankedLinesAreOriginal(s, i - 1);
      NewlinesSplit(s, i - 1);
      NewlinesSplit(Blanked(s), i - 1);
    }
  }
}
