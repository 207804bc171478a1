/**
 * The snapshot keeper over whole callback histories: which snapshot it promises, when a close
 * request succeeds, and what a sealed manifest says about everything the process sent.
 */
module KeeperHistory {
  import opened Wrappers
  import opened BackupCapture

  // ---- A keeper and the callbacks it has seen --------------------------------------------------

  function Heard(p: Protocol, k: Keeper, e: Event): Keeper { if FromProcess(e) then KeeperEvent(p, k, e) else k }

  function Replay(p: Protocol, k: Keeper, events: seq<Event>): Keeper
    decreases |events|
  {
    if events == [] then k else Heard(p, Replay(p, k, events[..|events| - 1]), events[|events| - 1])
  }

  /** All text the process has sent. */
  function Received(events: seq<Event>): string
    decreases |events|
  {
    if events == [] then ""
    else
      var last := events[|events| - 1];
      Received(events[..|events| - 1]) + ChunkOf(last)
  }

  predicate Ends(e: Event) { e.SpawnFails? || (e.ProcessEnds? && !e.code.Running?) }

  function ExitOf(e: Event): Exit { if e.ProcessEnds? then e.code else NoCode }

  /** Callbacks that refuse the snapshot whatever was sent. */
  predicate Faults(e: Event) { e.SpawnFails? || e.ReadyDeadline? || e.InputFails? }

  /** Neither a complete line nor too much text. */
  predicate Quiet(text: string) { '\n' !in text && |text| <= 4096 }

  lemma ReplaySnoc(p: Protocol, k: Keeper, events: seq<Event>, e: Event)
    ensures Replay(p, k, events + [e]) == Heard(p, Replay(p, k, events), e)
    ensures Received(events + [e]) == Received(events) + ChunkOf(e)
  {
    assert (events + [e])[..|events|] == events;
  }

  function ChunkOf(e: Event): string { if e.Data? then e.chunk else "" }

  lemma HeedsOne(p: Protocol, k: Keeper, e: Event)
    ensures var after := Heard(p, k, e);
      && after.controlled == k.controlled && after.buffer == k.buffer + ChunkOf(e)
      && ((k.closed <==> !k.exit.Running?) ==> (after.closed <==> !after.exit.Running?))
  {
    hide Trim;
    assert k.buffer + "" == k.buffer;
  }

  /** The callbacks never change who is in control, keep all text, and close a keeper when they settle its exit. */
  lemma {:induction false} Heeds(p: Protocol, k: Keeper, events: seq<Event>)
    ensures var after := Replay(p, k, events);
      && after.controlled == k.controlled
      && after.buffer == k.buffer + Received(events)
      && (k.buffer == "" ==> after.buffer == Received(events))
      && ((k.closed <==> !k.exit.Running?) ==> (after.closed <==> !after.exit.Running?))
    decreases |events|
  {
    if events == [] {
      assert k.buffer + "" == k.buffer;
    } else {
      hide Heard;
      var before, e := events[..|events| - 1], events[|events| - 1];
      Heeds(p, k, before);
      HeedsOne(p, Replay(p, k, before), e);
      Append(k.buffer, Received(before), ChunkOf(e));
    }
  }

  lemma Append(a: string, b: string, c: string)
    ensures a + b + c == a + (b + c)
    ensures a == "" ==> a + (b + c) == b + c
  {
  }

  // ---- Trimming ---------------------------------------------------------------------------------

  ghost predicate Blank(s: string) {
    forall i :: 0 <= i < |s| ==> (s[i] as int in
      {0x9, 0xA, 0xB, 0xC, 0xD, 0x20, 0xA0, 0x1680, 0x2000, 0x2001, 0x2002, 0x2003, 0x2004, 0x2005, 0x2006, 0x2007,
       0x2008, 0x2009, 0x200A, 0x2028, 0x2029, 0x202F, 0x205F, 0x3000, 0xFEFF})
  }

  /** What is left after trimming is the text between white space, and has none at its ends. */
  lemma TrimIff(s: string, t: string)
    ensures Trim(s) == t <==> exists before, after ::
      && Blank(before) && Blank(after) && s == before + t + after
      && (t != "" ==> !Blank(t[..1]) && !Blank(t[|t| - 1..]))
  {
    var before, after := TrimParts(s);
    if Trim(s) == t {
      assert Blank(before) && Blank(after) && s == before + t + after;
    }
    if x, y :| Blank(x) && Blank(y) && s == x + t + y && (t != "" ==> !Blank(t[..1]) && !Blank(t[|t| - 1..])) {
      if t == "" {
        BlankConcat(x, y);
        assert x + t + y == x + y;
        TrimBlank(x + y);
      } else {
        assert x + t + y == x + (t + y);
        assert (t + y)[..1] == t[..1];
        TrimLeftOf(x, t + y);
        TrimRightOf(t, y);
      }
    }
  }

  lemma BlankMeans(s: string)
    ensures Blank(s) <==> forall i :: 0 <= i < |s| ==> IsSpace(s[i])
  {
  }

  lemma BlankConcat(s: string, t: string)
    requires Blank(s) && Blank(t)
    ensures Blank(s + t)
  {
    BlankMeans(s);
    BlankMeans(t);
    BlankMeans(s + t);
    hide IsSpace, Blank;
  }

  lemma {:induction false} TrimLeftOf(x: string, t: string)
    requires Blank(x) && t != "" && !Blank(t[..1])
    ensures TrimLeft(x + t) == t
    decreases |x|
  {
    BlankMeans(x);
    BlankMeans(t[..1]);
    hide Blank, IsSpace;
    if x == "" {
      assert x + t == t;
    } else {
      BlankMeans(x[1..]);
      TrimLeftOf(x[1..], t);
      assert (x + t)[1..] == x[1..] + t;
    }
  }

  lemma {:induction false} TrimRightOf(t: string, y: string)
    requires Blank(y) && t != "" && !Blank(t[..1]) && !Blank(t[|t| - 1..])
    ensures TrimLeft(t + y) == t + y && TrimRight(t + y) == t
    decreases |y|
  {
    BlankMeans(y);
    BlankMeans(t[..1]);
    BlankMeans(t[|t| - 1..]);
    hide Blank, IsSpace;
    if y == "" {
      assert t + y == t;
    } else {
      var n := |y| - 1;
      BlankMeans(y[..n]);
      TrimRightOf(t, y[..n]);
      assert (t + y)[..|t + y| - 1] == t + y[..n];
    }
  }

  lemma {:induction false} TrimBlank(s: string)
    requires Blank(s)
    ensures TrimLeft(s) == "" && Trim(s) == ""
    decreases |s|
  {
    BlankMeans(s);
    hide Blank, IsSpace;
    if s != "" {
      BlankMeans(s[1..]);
      TrimBlank(s[1..]);
    }
  }

  lemma {:induction false} LeftParts(s: string) returns (before: string)
    ensures Blank(before) && s == before + TrimLeft(s) && (TrimLeft(s) != "" ==> !IsSpace(TrimLeft(s)[0]))
    decreases |s|
  {
    hide IsSpace;
    if s != "" && IsSpace(s[0]) {
      before := LeftParts(s[1..]);
      BlankMeans(before);
      before := [s[0]] + before;
      BlankMeans(before);
      assert s == [s[0]] + s[1..];
    } else {
      before := "";
      BlankMeans(before);
    }
  }

  lemma {:induction false} RightParts(s: string) returns (after: string)
    ensures Blank(after) && s == TrimRight(s) + after
    ensures TrimRight(s) != "" ==> !IsSpace(TrimRight(s)[|TrimRight(s)| - 1])
    decreases |s|
  {
    hide IsSpace;
    if s != "" && IsSpace(s[|s| - 1]) {
      after := RightParts(s[..|s| - 1]);
      BlankMeans(after);
      after := after + [s[|s| - 1]];
      BlankMeans(after);
      assert s == s[..|s| - 1] + [s[|s| - 1]];
    } else {
      after := "";
      BlankMeans(after);
      assert s + "" == s;
    }
  }

  lemma TrimParts(s: string) returns (before: string, after: string)
    ensures Blank(before) && Blank(after) && s == before + Trim(s) + after
    ensures Trim(s) != "" ==> !Blank(Trim(s)[..1]) && !Blank(Trim(s)[|Trim(s)| - 1..])
  {
    before := LeftParts(s);
    after := RightParts(TrimLeft(s));
    var t := Trim(s);
    hide IsSpace, TrimLeft, TrimRight;
    assert s == before + (t + after);
    if t != "" {
      assert TrimLeft(s)[0] == t[0];
      BlankMeans(t[..1]);
      BlankMeans(t[|t| - 1..]);
    }
  }

  // ---- Settled once ---------------------------------------------------------------------------------

  /** A settled promise keeps its value, and an ended process stays ended, whatever else is called back. */
  lemma {:induction false} SettledOnce(p: Protocol, k: Keeper, events: seq<Event>)
    ensures var after := Replay(p, k, events);
      && (!k.ready.Waiting? ==> after.ready == k.ready)
      && (!k.exit.Running? ==> after.exit == k.exit)
      && (k.closed ==> after.closed)
      && (k.acknowledged ==> after.acknowledged)
    decreases |events|
  {
    if events != [] {
      hide Heard;
      var before, e := events[..|events| - 1], events[|events| - 1];
      SettledOnce(p, k, before);
      StaysSettled(p, Replay(p, k, before), e);
    }
  }

  lemma StaysSettled(p: Protocol, k: Keeper, e: Event)
    ensures var after := Heard(p, k, e);
      && (!k.ready.Waiting? ==> after.ready == k.ready)
      && (!k.exit.Running? ==> after.exit == k.exit)
      && (k.closed ==> after.closed)
      && (k.acknowledged ==> after.acknowledged)
  {
    hide Trim;
  }

  // ---- The snapshot promise ------------------------------------------------------------------------

  /** Nothing so far settles the promise. */
  ghost predicate Undecided(events: seq<Event>) {
    (forall e :: e in events ==> !Faults(e) && !Ends(e)) && Quiet(Received(events))
  }

  /** The first line is complete with event `n` and decodes to the snapshot, and nothing had settled the promise before. */
  ghost predicate Answers(p: Protocol, events: seq<Event>, n: nat, snapshot: string, pid: nat) {
    && n < |events| && events[n].Data? && Undecided(events[..n])
    && var text := Received(events[..n + 1]);
       '\n' in text && |text| <= 4096 && p.decode(Trim(text)) == Some((snapshot, pid))
  }

  lemma {:induction false} WaitingIff(p: Protocol, events: seq<Event>)
    ensures Replay(p, SPAWNED, events).ready.Waiting? <==> Undecided(events)
    decreases |events|
  {
    if events != [] {
      var before, e := events[..|events| - 1], events[|events| - 1];
      assert events == before + [e];
      WaitingIff(p, before);
      Heeds(p, SPAWNED, before);
      UndecidedStep(before, e);
      hide Trim, Undecided;
    }
  }

  lemma UndecidedStep(before: seq<Event>, e: Event)
    ensures Undecided(before + [e]) <==>
      Undecided(before) && !Faults(e) && !Ends(e) && Quiet(Received(before) + ChunkOf(e))
  {
    assert (before + [e])[..|before|] == before;
    assert forall x :: x in before + [e] <==> x in before || x == e;
  }

  /** A keeper promises a snapshot exactly when its first line decodes to it and arrives before anything goes wrong. */
  lemma {:induction false} ExportedIff(p: Protocol, events: seq<Event>, snapshot: string, pid: nat)
    ensures Replay(p, SPAWNED, events).ready == Exported(snapshot, pid) <==>
      exists n: nat :: Answers(p, events, n, snapshot, pid)
    decreases |events|
  {
    if events != [] {
      var before, e := events[..|events| - 1], events[|events| - 1];
      assert events == before + [e];
      ExportedIff(p, before, snapshot, pid);
      AnswersEarlier(p, before, e, snapshot, pid);
      AnswersLast(p, before, e, snapshot, pid);
      hide Trim, Undecided, Answers, Replay, Received;
    }
  }

  lemma AnswersEarlier(p: Protocol, before: seq<Event>, e: Event, snapshot: string, pid: nat)
    ensures forall n: nat | n != |before| ::
      Answers(p, before + [e], n, snapshot, pid) <==> Answers(p, before, n, snapshot, pid)
  {
    hide Trim, Undecided, Received;
    forall n: nat | n != |before|
      ensures Answers(p, before + [e], n, snapshot, pid) <==> Answers(p, before, n, snapshot, pid)
    {
      if n < |before| {
        assert (before + [e])[..n] == before[..n] && (before + [e])[..n + 1] == before[..n + 1];
      }
    }
  }

  lemma AnswersLast(p: Protocol, before: seq<Event>, e: Event, snapshot: string, pid: nat)
    ensures Replay(p, SPAWNED, before + [e]).ready == Exported(snapshot, pid) <==>
      || Replay(p, SPAWNED, before).ready == Exported(snapshot, pid)
      || Answers(p, before + [e], |before|, snapshot, pid)
  {
    hide Trim, Undecided, Replay, Received;
    ReplaySnoc(p, SPAWNED, before, e);
    WaitingIff(p, before);
    Heeds(p, SPAWNED, before);
    assert (before + [e])[..|before|] == before && (before + [e])[..|before| + 1] == before + [e];
  }

  // ---- Closing ---------------------------------------------------------------------------------------

  /** A keeper that has just been asked to roll back, while it was alive. */
  predicate Requested(k: Keeper) {
    k.controlled && k.buffer == "" && !k.acknowledged && !k.closed && k.exit.Running?
  }

  /** With event `n` the text since the request is the marker, up to white space. */
  predicate Acknowledges(p: Protocol, events: seq<Event>, n: nat) {
    n < |events| && events[n].Data? && Trim(Received(events[..n + 1])) == p.marker
  }

  /** Event `n` is the first that ends the process, with this outcome. */
  predicate EndsWith(events: seq<Event>, n: nat, exit: Exit) {
    n < |events| && Ends(events[n]) && ExitOf(events[n]) == exit && forall e :: e in events[..n] ==> !Ends(e)
  }

  /** The marker was sent, and the process ended first with exit code 0. */
  ghost predicate ClosesCleanly(p: Protocol, events: seq<Event>) {
    (exists n: nat :: Acknowledges(p, events, n)) && (exists n: nat :: EndsWith(events, n, Exited(0)))
  }

  lemma {:induction false} AcknowledgedIff(p: Protocol, k: Keeper, events: seq<Event>)
    requires k.controlled && k.buffer == "" && !k.acknowledged
    ensures Replay(p, k, events).acknowledged <==> exists n: nat :: Acknowledges(p, events, n)
    decreases |events|
  {
    if events != [] {
      hide Trim, Received, Replay, Heard, Acknowledges;
      var before, e := events[..|events| - 1], events[|events| - 1];
      assert events == before + [e];
      AcknowledgedIff(p, k, before);
      Heeds(p, k, before);
      ReplaySnoc(p, k, before, e);
      AcknowledgesOne(p, Replay(p, k, before), e);
      AcknowledgesSnoc(p, before, e);
    } else {
      hide Trim;
    }
  }

  lemma AcknowledgesOne(p: Protocol, k: Keeper, e: Event)
    requires k.controlled
    ensures Heard(p, k, e).acknowledged <==> k.acknowledged || (e.Data? && Trim(k.buffer + ChunkOf(e)) == p.marker)
  {
    hide Trim;
  }

  lemma AcknowledgesSnoc(p: Protocol, before: seq<Event>, e: Event)
    ensures
      (exists n: nat :: Acknowledges(p, before + [e], n)) <==>
      (exists n: nat :: Acknowledges(p, before, n)) || (e.Data? && Trim(Received(before + [e])) == p.marker)
  {
    hide Trim, Received;
    var events := before + [e];
    forall n: nat | n < |before| ensures Acknowledges(p, events, n) <==> Acknowledges(p, before, n) {
      assert events[..n + 1] == before[..n + 1];
    }
    assert events[..|before| + 1] == events;
    assert Acknowledges(p, events, |before|) <==> e.Data? && Trim(Received(events)) == p.marker;
    assert forall n: nat :: Acknowledges(p, events, n) ==> n < |before| || n == |before|;
    assert forall n: nat :: Acknowledges(p, before, n) ==> n < |before|;
    hide Acknowledges;
  }

  lemma {:induction false} ExitIff(p: Protocol, k: Keeper, events: seq<Event>, exit: Exit)
    requires k.exit.Running? && !exit.Running?
    ensures Replay(p, k, events).exit == exit <==> exists n: nat :: EndsWith(events, n, exit)
    ensures Replay(p, k, events).exit.Running? <==> forall e :: e in events ==> !Ends(e)
    decreases |events|
  {
    if events != [] {
      hide Replay, Heard, EndsWith, Ends, ExitOf;
      var before, e := events[..|events| - 1], events[|events| - 1];
      assert events == before + [e];
      ExitIff(p, k, before, exit);
      ReplaySnoc(p, k, before, e);
      ExitOne(p, Replay(p, k, before), e);
      EndsSnoc(before, e, exit);
    }
  }

  lemma ExitOne(p: Protocol, k: Keeper, e: Event)
    ensures Heard(p, k, e).exit == if Ends(e) then Settle(k.exit, ExitOf(e)) else k.exit
    ensures Ends(e) ==> !ExitOf(e).Running?
  {
    hide Trim;
  }

  lemma EndsSnoc(before: seq<Event>, e: Event, exit: Exit)
    ensures
      (exists n: nat :: EndsWith(before + [e], n, exit)) <==>
      || (exists n: nat :: EndsWith(before, n, exit))
      || ((forall x :: x in before ==> !Ends(x)) && Ends(e) && ExitOf(e) == exit)
    ensures (forall x :: x in before + [e] ==> !Ends(x)) <==> (forall x :: x in before ==> !Ends(x)) && !Ends(e)
  {
    hide Ends, ExitOf;
    var events := before + [e];
    assert forall x :: x in events <==> x in before || x == e;
    assert events[..|before|] == before;
    forall n: nat | n < |before| ensures EndsWith(events, n, exit) <==> EndsWith(before, n, exit) {
      assert events[..n] == before[..n];
    }
    assert EndsWith(events, |before|, exit) <==>
      Ends(e) && ExitOf(e) == exit && forall x :: x in before ==> !Ends(x);
    assert forall n: nat :: EndsWith(events, n, exit) ==> n < |before| || n == |before|;
    assert forall n: nat :: EndsWith(before, n, exit) ==> n < |before|;
    hide EndsWith;
  }

  /** Closing succeeds exactly when the marker came back and the process then, or before that, ended by itself with 0. */
  lemma CleanExitIff(p: Protocol, k: Keeper, events: seq<Event>)
    requires Requested(k)
    ensures CleanExit(Replay(p, k, events)) <==> ClosesCleanly(p, events)
  {
    hide Replay, Acknowledges, EndsWith;
    AcknowledgedIff(p, k, events);
    ExitIff(p, k, events, Exited(0));
  }

  /** After a close request neither output nor the exit refuses the snapshot, and no output can promise one. */
  lemma {:induction false} ReadySurvivesClose(p: Protocol, k: Keeper, events: seq<Event>)
    requires k.controlled
    ensures var after := Replay(p, k, events);
      && (after.ready == k.ready || (k.ready.Waiting? && after.ready.Refused?))
      && (after.ready != k.ready ==> exists e :: e in events && Faults(e))
      && after.lostEarly == k.lostEarly
    decreases |events|
  {
    if events != [] {
      hide Heard, Faults;
      var before, e := events[..|events| - 1], events[|events| - 1];
      ReadySurvivesClose(p, k, before);
      Heeds(p, k, before);
      SurvivesOne(p, Replay(p, k, before), e);
      assert e in events && forall x :: x in before ==> x in events;
    }
  }

  lemma SurvivesOne(p: Protocol, k: Keeper, e: Event)
    requires k.controlled
    ensures var after := Heard(p, k, e);
      && after.ready == (if Faults(e) then Refuse(k.ready) else k.ready)
      && after.lostEarly == k.lostEarly
  {
    hide Trim;
  }

  // ---- The keeper within a capture run -----------------------------------------------------------------

  /** The run's keeper after the first `n` events. */
  ghost function KeeperAfter(p: Protocol, events: seq<Event>, n: nat): Option<Keeper>
    requires n <= |events|
  {
    Run(p, INITIAL, events[..n]).keeper
  }

  /** The `i`-th event makes the run spawn its keeper. */
  ghost predicate SpawnedAt(p: Protocol, events: seq<Event>, i: nat) {
    0 < i <= |events| && KeeperAfter(p, events, i - 1).None? && KeeperAfter(p, events, i) == Some(SPAWNED)
  }

  /** The `j`-th event makes the run ask its keeper, which is alive, to close. */
  ghost predicate AskedAt(p: Protocol, events: seq<Event>, j: nat) {
    && 0 < j <= |events| && KeeperAfter(p, events, j - 1).Some?
    && var open := KeeperAfter(p, events, j - 1).value;
       !open.closed && !open.controlled && KeeperAfter(p, events, j) == Some(AfterCloseRequest(open))
  }

  /** Spawned by event `i`, and if under control asked to close by event `j`, with the callbacks in between and since. */
  ghost predicate Splits(p: Protocol, events: seq<Event>, k: Keeper, i: nat, j: nat) {
    && i <= j <= |events| && SpawnedAt(p, events, i)
    && var open := Replay(p, SPAWNED, events[i..j]);
       if k.controlled then AskedAt(p, events, j) && !open.closed && k == Replay(p, AfterCloseRequest(open), events[j..])
       else j == |events| && k == open
  }

  ghost predicate HasHistory(p: Protocol, events: seq<Event>, k: Keeper) {
    exists i: nat, j: nat :: Splits(p, events, k, i, j)
  }

  lemma HistoryStarts(p: Protocol, events: seq<Event>)
    requires SpawnedAt(p, events, |events|)
    ensures HasHistory(p, events, SPAWNED)
  {
    hide SpawnedAt;
    assert Splits(p, events, SPAWNED, |events|, |events|);
  }

  lemma Slices(events: seq<Event>, e: Event, i: nat, j: nat)
    requires i <= j <= |events|
    ensures var all := events + [e];
      all[i..j] == events[i..j] && all[j..] == events[j..] + [e] && all[i..|all|] == events[i..] + [e]
    ensures j == |events| ==> events[i..j] == events[i..]
  {
  }

  lemma EarlierEvents(p: Protocol, events: seq<Event>, e: Event)
    ensures forall i :: SpawnedAt(p, events, i) ==> SpawnedAt(p, events + [e], i)
    ensures forall j :: AskedAt(p, events, j) ==> AskedAt(p, events + [e], j)
  {
    hide Run;
    forall n: nat | n <= |events| ensures KeeperAfter(p, events + [e], n) == KeeperAfter(p, events, n) {
      assert (events + [e])[..n] == events[..n];
    }
    hide KeeperAfter;
  }

  lemma HistoryGoesOn(p: Protocol, events: seq<Event>, k: Keeper, e: Event)
    requires HasHistory(p, events, k)
    ensures HasHistory(p, events + [e], Heard(p, k, e))
  {
    hide Replay, Heard, Received, ChunkOf, SpawnedAt, AskedAt;
    EarlierEvents(p, events, e);
    var i: nat, j: nat :| Splits(p, events, k, i, j);
    var all := events + [e];
    HeedsOne(p, k, e);
    Slices(events, e, i, j);
    if k.controlled {
      ReplaySnoc(p, AfterCloseRequest(Replay(p, SPAWNED, events[i..j])), events[j..], e);
      assert Splits(p, all, Heard(p, k, e), i, j);
    } else {
      ReplaySnoc(p, SPAWNED, events[i..j], e);
      assert Splits(p, all, Heard(p, k, e), i, |all|);
    }
  }

  lemma HistoryCloses(p: Protocol, events: seq<Event>, k: Keeper, e: Event)
    requires HasHistory(p, events, k) && !k.controlled && !k.closed && !FromProcess(e)
    requires AskedAt(p, events + [e], |events + [e]|)
    ensures HasHistory(p, events + [e], AfterCloseRequest(k))
  {
    hide SpawnedAt, AskedAt;
    HistoryGoesOn(p, events, k, e);
    var all := events + [e];
    var i: nat, j: nat :| Splits(p, all, k, i, j);
    assert all[j..] == [];
    assert Splits(p, all, AfterCloseRequest(k), i, j);
  }

  lemma HistoryEnds(p: Protocol, events: seq<Event>, k: Keeper)
    requires HasHistory(p, events, k)
    ensures k.closed <==> !k.exit.Running?
  {
    var i: nat, j: nat :| Splits(p, events, k, i, j);
    Heeds(p, SPAWNED, events[i..j]);
    Heeds(p, AfterCloseRequest(Replay(p, SPAWNED, events[i..j])), events[j..]);
    hide Replay;
  }

  /** What a capture step does to the keeper: nothing, spawn it, or ask it to close while it is alive. */
  lemma KeeperMoves(p: Protocol, s: State, e: Event)
    requires Inv(s) && !FromProcess(e)
    requires s.keeper.Some? ==> (s.keeper.value.closed <==> !s.keeper.value.exit.Running?)
    ensures var next := Step(p, s, e).keeper;
      || next == s.keeper
      || (s.keeper.None? && next == Some(SPAWNED))
      || (s.keeper.Some? && next == Some(AfterCloseRequest(s.keeper.value))
          && !s.keeper.value.controlled && !s.keeper.value.closed)
  {
    hide TypesUnchanged, Observed, Record;
  }

  /** In every capture run the keeper is what the callbacks since it was spawned have made of it. */
  lemma {:induction false} KeeperHasHistory(p: Protocol, events: seq<Event>)
    ensures var s := Run(p, INITIAL, events);
      s.keeper.Some? ==> HasHistory(p, events, s.keeper.value)
    decreases |events|
  {
    hide HasHistory, Inv;
    if events != [] {
      var before, e := events[..|events| - 1], events[|events| - 1];
      assert events == before + [e];
      KeeperHasHistory(p, before);
      HistoryStep(p, before, e);
    }
  }

  lemma HistoryStep(p: Protocol, before: seq<Event>, e: Event)
    requires Run(p, INITIAL, before).keeper.Some? ==> HasHistory(p, before, Run(p, INITIAL, before).keeper.value)
    ensures var next := Run(p, INITIAL, before + [e]);
      next.keeper.Some? ==> HasHistory(p, before + [e], next.keeper.value)
  {
    hide HasHistory, Inv, Run;
    var s := Run(p, INITIAL, before);
    RunKeeps(p, before);
    RunSnoc(p, before, e);
    if s.keeper.Some? {
      HistoryGoesOn(p, before, s.keeper.value, e);
      HistoryEnds(p, before, s.keeper.value);
    }
    if !FromProcess(e) {
      KeeperMoves(p, s, e);
      LastTwo(p, before, e);
      hide Step;
      if s.keeper.None? {
        if Run(p, INITIAL, before + [e]).keeper.Some? { HistoryStarts(p, before + [e]); }
      } else if Run(p, INITIAL, before + [e]).keeper != s.keeper {
        HistoryCloses(p, before, s.keeper.value, e);
      }
    }
  }

  lemma LastTwo(p: Protocol, before: seq<Event>, e: Event)
    ensures KeeperAfter(p, before + [e], |before|) == Run(p, INITIAL, before).keeper
    ensures KeeperAfter(p, before + [e], |before| + 1) == Run(p, INITIAL, before + [e]).keeper
  {
    hide Run;
    assert (before + [e])[..|before|] == before && (before + [e])[..|before| + 1] == before + [e];
  }

  /**
   * A sealed manifest, said of the events alone: between the spawn and the close request the process
   * never ended and its first line decoded to the sealed snapshot before anything went wrong; after the
   * request it sent the marker and ended with exit code 0.
   */
  lemma SealedSnapshotWasHeld(p: Protocol, events: seq<Event>, snapshot: string)
    requires Run(p, INITIAL, events).files.sealedWith == Some(snapshot)
    ensures exists i: nat, j: nat :: HeldUntilClose(p, events, snapshot, i, j)
  {
    hide Run, TypesUnchanged, Splits;
    SealedOnlyWhenVouched(p, events);
    KeeperHasHistory(p, events);
    var k := Run(p, INITIAL, events).keeper.value;
    var i: nat, j: nat :| Splits(p, events, k, i, j);
    SplitHeld(p, events, k, snapshot, i, j);
  }

  ghost predicate HeldUntilClose(p: Protocol, events: seq<Event>, snapshot: string, i: nat, j: nat) {
    && i <= j <= |events| && SpawnedAt(p, events, i) && AskedAt(p, events, j)
    && (forall e :: e in events[i..j] ==> !Ends(e))
    && (exists n: nat, pid: nat :: Answers(p, events[i..j], n, snapshot, pid))
    && ClosesCleanly(p, events[j..])
  }

  lemma SplitHeld(p: Protocol, events: seq<Event>, k: Keeper, snapshot: string, i: nat, j: nat)
    requires Splits(p, events, k, i, j)
    requires k.controlled && CleanExit(k) && k.ready.Exported? && k.ready.snapshot == snapshot
    ensures HeldUntilClose(p, events, snapshot, i, j)
  {
    hide Replay, Answers, ClosesCleanly, SpawnedAt, AskedAt;
    var open := Replay(p, SPAWNED, events[i..j]);
    var asked := AfterCloseRequest(open);
    Unacknowledged(p, events[i..j]);
    Heeds(p, SPAWNED, events[i..j]);
    ExitIff(p, SPAWNED, events[i..j], NoCode);
    ReadySurvivesClose(p, asked, events[j..]);
    ExportedIff(p, events[i..j], snapshot, k.ready.pid);
    CleanExitIff(p, asked, events[j..]);
  }

  /** Nothing is acknowledged before the close request. */
  lemma {:induction false} Unacknowledged(p: Protocol, events: seq<Event>)
    ensures !Replay(p, SPAWNED, events).acknowledged
    decreases |events|
  {
    hide Trim;
    if events != [] {
      Unacknowledged(p, events[..|events| - 1]);
      Heeds(p, SPAWNED, events[..|events| - 1]);
    }
  }
}
