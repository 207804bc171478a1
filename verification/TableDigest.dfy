/**
 * The streaming table digest: hex row hashes arrive in arbitrary chunks, one per
 * line and sorted, and are fed to one running hash.
 */
module TableDigest {
  import opened Ordering

  const CONTENT_ALGORITHM := "pg16-column-text-sha256-multiset-v2"

  predicate IsHex(c: char) { 'a' <= c <= 'f' || '0' <= c <= '9' }

  predicate IsRowHash(line: string) { |line| == 64 && forall i :: 0 <= i < 64 ==> IsHex(line[i]) }

  /** A chunk is decoded text, or raw bytes that must be ASCII. */
  datatype Chunk = Text(text: string) | Bytes(bytes: seq<bv8>)

  function CharOf(b: bv8): char { b as char }

  function Decoded(chunk: Chunk): string {
    match chunk
    case Text(text) => text
    case Bytes(bytes) => seq(|bytes|, i requires 0 <= i < |bytes| => CharOf(bytes[i]))
  }

  // ---- One character at a time ------------------------------------------------------------

  /** What the hash has absorbed, the lines counted, the unfinished line, and the last finished one. */
  datatype Progress = Failed | Progress(absorbed: string, rows: nat, pending: string, previous: string)

  function Start(header: string): Progress { Progress(header, 0, "", "") }

  function Feed(p: Progress, c: char): Progress {
    match p
    case Failed => Failed
    case Progress(absorbed, rows, pending, previous) =>
      if c == '\n' then
        if !IsRowHash(pending) || Less(pending, previous) then Failed
        else Progress(absorbed + pending + "\n", rows + 1, "", pending)
      else if !IsHex(c) || |pending| >= 64 then Failed
      else Progress(absorbed, rows, pending + [c], previous)
  }

  function FeedAll(p: Progress, text: string): Progress
    decreases |text|
  {
    if text == "" then p else Feed(FeedAll(p, text[..|text| - 1]), text[|text| - 1])
  }

  class Digest {
    var absorbed: string
    var rows: nat
    var pending: string
    var previous: string

    ghost function Now(): Progress reads this { Progress(absorbed, rows, pending, previous) }

    constructor (columns: string)
      ensures Now() == Start(Header(columns))
    {
      absorbed := Header(columns);
      rows, pending, previous := 0, "", "";
    }

    /** Consumes a chunk; after a failure the digest must not be used again. */
    method Update(chunk: Chunk) returns (ok: bool)
      modifies this
      ensures FeedAll(old(Now()), Decoded(chunk)) == if ok then Now() else Failed
    {
      if chunk.Bytes? {
        var ascii := AllAscii(chunk.bytes);
        if !ascii {
          NonAsciiFails(Now(), chunk.bytes);
          return false;
        }
      }
      var text := Decoded(chunk);
      ghost var start := Now();
      for i := 0 to |text|
        invariant FeedAll(start, text[..i]) == Now()
      {
        var c := text[i];
        FeedMore(start, text, i);
        if c == '\n' {
          if !IsRowHash(pending) || Less(pending, previous) {
            FailureSticks(start, text, i + 1);
            return false;
          }
          absorbed := absorbed + pending + "\n";
          previous := pending;
          pending := "";
          rows := rows + 1;
        } else {
          if !IsHex(c) || |pending| >= 64 {
            FailureSticks(start, text, i + 1);
            return false;
          }
          pending := pending + [c];
        }
      }
      assert text[..|text|] == text;
      ok := true;
    }

    /** The row count and the hashed bytes, unless a line is left unfinished. */
    method Finish() returns (ok: bool, count: nat, hashed: string)
      ensures ok <==> Now().pending == ""
      ensures ok ==> count == Now().rows && hashed == Now().absorbed
    {
      ok, count, hashed := pending == "", rows, absorbed;
    }
  }

  function Header(columns: string): string { CONTENT_ALGORITHM + "\n" + columns + "\n" }

  method AllAscii(bytes: seq<bv8>) returns (ascii: bool)
    ensures ascii <==> forall i :: 0 <= i < |bytes| ==> bytes[i] <= 127
  {
    ascii := true;
    for i := 0 to |bytes|
      invariant ascii <==> forall k :: 0 <= k < i ==> bytes[k] <= 127
    {
      if bytes[i] > 127 { ascii := false; }
    }
  }

  lemma FeedMore(p: Progress, text: string, i: nat)
    requires i < |text|
    ensures FeedAll(p, text[..i + 1]) == Feed(FeedAll(p, text[..i]), text[i])
  {
    assert text[..i + 1][..i] == text[..i];
  }

  lemma {:induction false} FailureSticks(p: Progress, text: string, i: nat)
    requires i <= |text| && FeedAll(p, text[..i]) == Failed
    ensures FeedAll(p, text) == Failed
    decreases |text| - i
  {
    if i < |text| {
      FeedMore(p, text, i);
      FailureSticks(p, text, i + 1);
    } else {
      assert text[..i] == text;
    }
  }

  lemma NonAsciiFails(p: Progress, bytes: seq<bv8>)
    requires exists i :: 0 <= i < |bytes| && bytes[i] > 127
    ensures FeedAll(p, Decoded(Bytes(bytes))) == Failed
  {
    var i :| 0 <= i < |bytes| && bytes[i] > 127;
    var text := Decoded(Bytes(bytes));
    assert text[i] == CharOf(bytes[i]);
    HighByteIsNotHex(bytes[i]);
    FeedMore(p, text, i);
    FailureSticks(p, text, i + 1);
  }

  lemma HighByteIsNotHex(b: bv8)
    requires b > 127
    ensures !IsHex(CharOf(b)) && CharOf(b) != '\n'
  {
    assert b as int > 127;
  }

  // ---- Chunking does not matter -----------------------------------------------------------

  function Joined(chunks: seq<Chunk>): string {
    if chunks == [] then "" else Joined(chunks[..|chunks| - 1]) + Decoded(chunks[|chunks| - 1])
  }

  lemma {:induction false} FeedConcat(p: Progress, a: string, b: string)
    ensures FeedAll(p, a + b) == FeedAll(FeedAll(p, a), b)
    decreases |b|
  {
    if b == "" {
      assert a + b == a;
    } else {
      var n := |b| - 1;
      assert (a + b)[..|a + b| - 1] == a + b[..n];
      FeedConcat(p, a, b[..n]);
    }
  }

  datatype Outcome = Rejected | Accepted(rows: nat, hashed: string)

  /** Runs one digest over a whole stream, stopping at the first failure. */
  method DigestStream(columns: string, chunks: seq<Chunk>) returns (outcome: Outcome)
    ensures outcome == Verdict(Header(columns), Joined(chunks))
    ensures outcome.Accepted? <==> exists lines :: IsTable(lines) && Joined(chunks) == Encode(lines)
    ensures outcome.Accepted? ==>
      outcome.hashed == "pg16-column-text-sha256-multiset-v2\n" + columns + "\n" + Joined(chunks)
  {
    hide IsTable, Encode, FeedAll, Feed, Start;
    StreamAccepted(columns, Joined(chunks));
    FedNothing(Start(Header(columns)));
    var digest := new Digest(columns);
    ghost var start := Start(Header(columns));
    for i := 0 to |chunks|
      invariant FeedAll(start, Joined(chunks[..i])) == digest.Now()
    {
      assert chunks[..i + 1][..i] == chunks[..i];
      FeedConcat(start, Joined(chunks[..i]), Decoded(chunks[i]));
      var ok := digest.Update(chunks[i]);
      if !ok {
        JoinedPrefix(chunks, i + 1);
        assert Joined(chunks)[..|Joined(chunks[..i + 1])|] == Joined(chunks[..i + 1]);
        FailureSticks(start, Joined(chunks), |Joined(chunks[..i + 1])|);
        return Rejected;
      }
    }
    assert chunks[..|chunks|] == chunks;
    var ok, count, hashed := digest.Finish();
    outcome := if ok then Accepted(count, hashed) else Rejected;
  }

  lemma FedNothing(p: Progress)
    ensures FeedAll(p, "") == p
  {
  }

  lemma {:induction false} JoinedPrefix(chunks: seq<Chunk>, i: nat)
    requires i <= |chunks|
    ensures Joined(chunks[..i]) <= Joined(chunks)
    decreases |chunks| - i
  {
    if i < |chunks| {
      assert chunks[..i + 1][..i] == chunks[..i];
      JoinedPrefix(chunks, i + 1);
    } else {
      assert chunks[..i] == chunks;
    }
  }

  /** The outcome as a function of the concatenated stream alone. */
  function Verdict(header: string, text: string): Outcome {
    match FeedAll(Start(header), text)
    case Failed => Rejected
    case Progress(absorbed, rows, pending, _) => if pending == "" then Accepted(rows, absorbed) else Rejected
  }

  // ---- Exactly the sorted row lists are accepted --------------------------------------------

  function Encode(lines: seq<string>): string {
    if lines == [] then "" else Encode(lines[..|lines| - 1]) + lines[|lines| - 1] + "\n"
  }

  /**
   * Every line is 64 lower-case hexadecimal digits, and neighbours are equal or have the smaller
   * character in the earlier line at the first place where they differ.
   */
  ghost predicate IsTable(lines: seq<string>) {
    && (forall i :: 0 <= i < |lines| ==> |lines[i]| == 64)
    && (forall i, k :: 0 <= i < |lines| && 0 <= k < 64 ==> lines[i][k] in "0123456789abcdef")
    && (forall i :: 0 < i < |lines| ==> lines[i - 1] == lines[i] || Ascends(lines[i - 1], lines[i]))
  }

  ghost predicate Ascends(a: string, b: string) {
    exists k :: 0 <= k < |a| && k < |b| && a[..k] == b[..k] && a[k] < b[k]
  }

  /** The literal description against the checks of the code. */
  lemma TableIff(lines: seq<string>)
    ensures IsTable(lines) <==> Sorted(lines) && forall i :: 0 <= i < |lines| ==> IsRowHash(lines[i])
  {
    HexDigits();
    if forall i :: 0 <= i < |lines| ==> |lines[i]| == 64 {
      forall i | 0 < i < |lines|
        ensures !Less(lines[i], lines[i - 1]) <==> lines[i - 1] == lines[i] || Ascends(lines[i - 1], lines[i])
      {
        OrderOfLines(lines[i - 1], lines[i]);
      }
    }
    hide Less, Ascends, IsHex;
  }

  lemma HexDigits()
    ensures forall c :: IsHex(c) <==> c in "0123456789abcdef"
  {
    assert "0123456789abcdef" == ['0', '1', '2', '3', '4', '5', '6', '7', '8', '9', 'a', 'b', 'c', 'd', 'e', 'f'];
    forall c ensures IsHex(c) <==> c in "0123456789abcdef" {
      if '0' <= c <= '9' {
        assert "0123456789abcdef"[c as int - 48] == c;
      } else if 'a' <= c <= 'f' {
        assert "0123456789abcdef"[c as int - 87] == c;
      }
    }
  }

  lemma OrderOfLines(a: string, b: string)
    requires |a| == |b|
    ensures !Less(b, a) <==> a == b || Ascends(a, b)
  {
    LessIff(a, b);
    hide Less;
    if Less(b, a) {
      LessAsymmetric(b, a);
      LessIrreflexive(a);
    } else if !Less(a, b) {
      LessTotal(a, b);
    }
  }

  function LastLine(lines: seq<string>): string { if lines == [] then "" else lines[|lines| - 1] }

  lemma TableSnoc(lines: seq<string>, line: string)
    ensures IsTable(lines + [line]) <==> IsTable(lines) && IsRowHash(line) && !Less(line, LastLine(lines))
  {
    TableIff(lines);
    TableIff(lines + [line]);
    hide IsTable, IsRowHash, Less;
    var more := lines + [line];
    LessThanEmpty(line);
    assert forall i :: 0 <= i < |lines| ==> more[i] == lines[i];
    assert more[|lines|] == line;
    assert lines != [] ==> more[|lines| - 1] == LastLine(lines);
  }

  /** The progress after whole lines followed by part of one. */
  ghost predicate ReadSoFar(header: string, text: string, p: Progress, lines: seq<string>) {
    && p.Progress? && IsTable(lines)
    && text == Encode(lines) + p.pending && |p.pending| <= 64 && (forall i :: 0 <= i < |p.pending| ==> IsHex(p.pending[i]))
    && p == Progress(header + Encode(lines), |lines|, p.pending, LastLine(lines))
  }

  lemma {:induction false} ProgressMeansLines(header: string, text: string) returns (lines: seq<string>)
    requires FeedAll(Start(header), text).Progress?
    ensures ReadSoFar(header, text, FeedAll(Start(header), text), lines)
    decreases |text|
  {
    hide ReadSoFar;
    if text == "" {
      lines := [];
      NothingRead(header);
    } else {
      var n := |text| - 1;
      var before := FeedAll(Start(header), text[..n]);
      var earlier := ProgressMeansLines(header, text[..n]);
      assert text == text[..n] + [text[n]];
      lines := if text[n] == '\n' then earlier + [before.pending] else earlier;
      ReadOneMore(header, text[..n], text[n], before, earlier);
    }
  }

  lemma NothingRead(header: string)
    ensures ReadSoFar(header, "", Start(header), [])
  {
    assert header + "" == header;
  }

  lemma EncodeSnoc(lines: seq<string>, line: string)
    ensures Encode(lines + [line]) == Encode(lines) + line + "\n"
  {
    assert (lines + [line])[..|lines|] == lines;
  }

  lemma ReadOneMore(header: string, text: string, c: char, p: Progress, lines: seq<string>)
    requires ReadSoFar(header, text, p, lines) && Feed(p, c).Progress?
    ensures ReadSoFar(header, text + [c], Feed(p, c), if c == '\n' then lines + [p.pending] else lines)
  {
    hide Less, Encode, IsTable, IsHex;
    if c == '\n' {
      EncodeSnoc(lines, p.pending);
      TableSnoc(lines, p.pending);
      var next := lines + [p.pending];
      assert p.absorbed + p.pending + "\n" == header + Encode(next);
      assert text + "\n" == Encode(next) + "";
    } else {
      assert text + [c] == Encode(lines) + (p.pending + [c]);
    }
  }

  lemma {:induction false} FeedHex(p: Progress, line: string)
    requires p.Progress? && p.pending == "" && |line| <= 64 && forall i :: 0 <= i < |line| ==> IsHex(line[i])
    ensures FeedAll(p, line) == p.(pending := line)
    decreases |line|
  {
    if line != "" {
      var n := |line| - 1;
      FeedHex(p, line[..n]);
      assert line[..n] + [line[n]] == line;
    }
  }

  lemma {:induction false} LinesAreRead(header: string, lines: seq<string>)
    requires IsTable(lines)
    ensures FeedAll(Start(header), Encode(lines)) == Progress(header + Encode(lines), |lines|, "", LastLine(lines))
    decreases |lines|
  {
    hide Encode, Less, FeedAll, Feed, IsTable, IsRowHash;
    if lines == [] {
      NoLines(header);
    } else {
      var n := |lines| - 1;
      TableSnoc(lines[..n], lines[n]);
      assert lines == lines[..n] + [lines[n]];
      LinesAreRead(header, lines[..n]);
      EncodeSnoc(lines[..n], lines[n]);
      FeedConcat(Start(header), Encode(lines[..n]), lines[n] + "\n");
      assert Encode(lines[..n]) + (lines[n] + "\n") == Encode(lines);
      FeedLine(Progress(header + Encode(lines[..n]), n, "", LastLine(lines[..n])), lines[n]);
      assert (header + Encode(lines[..n])) + lines[n] + "\n" == header + Encode(lines);
    }
  }

  lemma NoLines(header: string)
    ensures FeedAll(Start(header), Encode([])) == Progress(header + Encode([]), 0, "", "")
  {
    assert header + "" == header;
  }

  lemma FeedLine(p: Progress, line: string)
    requires p.Progress? && p.pending == "" && IsRowHash(line) && !Less(line, p.previous)
    ensures FeedAll(p, line + "\n") == Progress(p.absorbed + line + "\n", p.rows + 1, "", line)
  {
    FeedHex(p, line);
    FeedConcat(p, line, "\n");
    assert "\n"[..0] == "";
  }

  lemma LessThanEmpty(s: string)
    ensures !Less(s, "")
  {
  }

  /**
   * A stream is accepted exactly when it is a sorted list of newline-terminated row hashes;
   * the row count is the number of lines and the hash sees the header and then the stream.
   */
  lemma AcceptedIffTable(header: string, text: string)
    ensures Verdict(header, text).Accepted? <==> exists lines :: IsTable(lines) && text == Encode(lines)
    ensures forall lines :: IsTable(lines) && text == Encode(lines) ==>
      Verdict(header, text) == Accepted(|lines|, header + text)
  {
    if Verdict(header, text).Accepted? {
      var lines := ProgressMeansLines(header, text);
      assert Encode(lines) + "" == Encode(lines);
      assert IsTable(lines) && text == Encode(lines);
    }
    forall lines | IsTable(lines) && text == Encode(lines)
      ensures Verdict(header, text) == Accepted(|lines|, header + text)
    {
      LinesAreRead(header, lines);
    }
  }

  lemma StreamAccepted(columns: string, text: string)
    ensures
      var outcome := Verdict(Header(columns), text);
      && (outcome.Accepted? <==> exists lines :: IsTable(lines) && text == Encode(lines))
      && (outcome.Accepted? ==> outcome.hashed == "pg16-column-text-sha256-multiset-v2\n" + columns + "\n" + text)
  {
    hide IsTable, Verdict;
    AcceptedIffTable(Header(columns), text);
    assert Header(columns) == "pg16-column-text-sha256-multiset-v2\n" + columns + "\n";
  }

  /** Two accepted streams with the same rows, in whatever chunks, put the same bytes into the hash. */
  lemma SameRowsSameBytes(header: string, a: seq<string>, b: seq<string>)
    requires IsTable(a) && IsTable(b) && multiset(a) == multiset(b)
    ensures Verdict(header, Encode(a)) == Verdict(header, Encode(b)) == Accepted(|a|, header + Encode(a))
  {
    TableIff(a);
    TableIff(b);
    SortedIsUnique(a, b);
    AcceptedIffTable(header, Encode(a));
  }

  lemma {:induction false} EncodeInjective(a: seq<string>, b: seq<string>)
    requires Encode(a) == Encode(b)
    requires (forall i :: 0 <= i < |a| ==> |a[i]| == 64) && (forall i :: 0 <= i < |b| ==> |b[i]| == 64)
    ensures a == b
    decreases |a|
  {
    if a != [] && b != [] {
      var n, m := |a| - 1, |b| - 1;
      var x, y := Encode(a[..n]), Encode(b[..m]);
      assert Encode(a) == x + a[n] + "\n" && Encode(b) == y + b[m] + "\n";
      hide Encode;
      SameEnds(x, a[n], y, b[m]);
      EncodeInjective(a[..n], b[..m]);
      assert a == a[..n] + [a[n]] && b == b[..m] + [b[m]];
    }
  }

  lemma SameEnds(x: string, line: string, y: string, other: string)
    requires x + line + "\n" == y + other + "\n" && |line| == |other|
    ensures x == y && line == other
  {
    var whole := x + line + "\n";
    assert x == whole[..|x|] && y == whole[..|y|];
    assert line == whole[|x|..|x| + |line|] && other == whole[|y|..|y| + |other|];
  }

  /** Conversely, different row multisets put different bytes into the hash. */
  lemma SameBytesSameRows(header: string, a: seq<string>, b: seq<string>)
    requires IsTable(a) && IsTable(b) && Verdict(header, Encode(a)) == Verdict(header, Encode(b))
    ensures multiset(a) == multiset(b)
  {
    AcceptedIffTable(header, Encode(a));
    AcceptedIffTable(header, Encode(b));
    assert Encode(a) == (header + Encode(a))[|header|..];
    assert Encode(b) == (header + Encode(b))[|header|..];
    EncodeInjective(a, b);
  }
}
