/**
 * The snapshot keeper process and the capture run that seals a source manifest.
 * The run is a state machine: keeper output, exits, timeouts and stream errors may
 * arrive between any two capture steps, and any capture step may throw.
 */
module BackupCapture {
  import opened Wrappers

  // ---- The keeper process, as its callbacks see it -----------------------------------------

  /** The promise of the exported snapshot. */
  datatype Ready = Waiting | Exported(snapshot: string, pid: nat) | Refused

  /** The promise of the exit code; a signal or a failed spawn has no code. */
  datatype Exit = Running | Exited(code: int) | NoCode

  /** `lostEarly` records that the process ended while nobody had asked it to. */
  datatype Keeper = Keeper(
    closed: bool, controlled: bool, acknowledged: bool, buffer: string,
    ready: Ready, exit: Exit, lostEarly: bool)

  /** What the capture run fixes: the closing marker, and how a response line is decoded. */
  datatype Protocol = Protocol(marker: string, decode: string -> Option<(string, nat)>)

  const RESPONSE_LIMIT := 4096

  const SPAWNED := Keeper(false, false, false, "", Waiting, Running, false)

  /** White space and line ends, as the trimming of the script's language takes them. */
  predicate IsSpace(c: char) {
    var n := c as int;
    || 9 <= n <= 13 || n == 32 || n == 0xA0 || n == 0x1680 || 0x2000 <= n <= 0x200A
    || n == 0x2028 || n == 0x2029 || n == 0x202F || n == 0x205F || n == 0x3000 || n == 0xFEFF
  }

  function TrimLeft(s: string): string {
    if s != "" && IsSpace(s[0]) then TrimLeft(s[1..]) else s
  }

  function TrimRight(s: string): string {
    if s != "" && IsSpace(s[|s| - 1]) then TrimRight(s[..|s| - 1]) else s
  }

  function Trim(s: string): string { TrimRight(TrimLeft(s)) }

  /** Only the first settlement of a promise counts. */
  function Refuse(r: Ready): Ready { if r.Waiting? then Refused else r }

  function Settle(x: Exit, y: Exit): Exit { if x.Running? then y else x }

  function AfterData(p: Protocol, k: Keeper, chunk: string): Keeper {
    var buffer := k.buffer + chunk;
    var next := k.(buffer := buffer);
    if k.controlled then
      if Trim(buffer) == p.marker then next.(acknowledged := true) else next
    else if |buffer| > RESPONSE_LIMIT then next.(ready := Refuse(k.ready))
    else if '\n' in buffer then
      match p.decode(Trim(buffer))
      case Some((snapshot, pid)) => next.(ready := if k.ready.Waiting? then Exported(snapshot, pid) else k.ready)
      case None => next.(ready := Refuse(k.ready))
    else next
  }

  function AfterClose(k: Keeper, exit: Exit): Keeper {
    k.(closed := true, exit := Settle(k.exit, exit),
       ready := if k.controlled then k.ready else Refuse(k.ready),
       lostEarly := k.lostEarly || !k.controlled)
  }

  function AfterSpawnError(k: Keeper): Keeper {
    k.(closed := true, exit := Settle(k.exit, NoCode), ready := Refuse(k.ready), lostEarly := k.lostEarly || !k.controlled)
  }

  function AfterRefusal(k: Keeper): Keeper { k.(ready := Refuse(k.ready)) }

  function AfterCloseRequest(k: Keeper): Keeper { k.(controlled := true, buffer := "") }

  /** The callbacks of the child process, over the variables they share. */
  class SnapshotKeeper {
    const protocol: Protocol
    var closed: bool
    var controlled: bool
    var acknowledged: bool
    var buffer: string
    var ready: Ready
    var exit: Exit
    ghost var lostEarly: bool

    ghost function Now(): Keeper reads this {
      Keeper(closed, controlled, acknowledged, buffer, ready, exit, lostEarly)
    }

    constructor (p: Protocol)
      ensures protocol == p && Now() == SPAWNED
    {
      protocol := p;
      closed, controlled, acknowledged, buffer, ready, exit, lostEarly := false, false, false, "", Waiting, Running, false;
    }

    /** `kill` is set when the callback also sends SIGKILL. */
    method OnData(chunk: string) returns (kill: bool)
      modifies this
      ensures Now() == AfterData(protocol, old(Now()), chunk)
      ensures old(controlled) ==>
        (kill <==> Trim(buffer) != protocol.marker && (|buffer| > RESPONSE_LIMIT || '\n' in buffer))
      ensures !old(controlled) ==>
        (kill <==> |buffer| > RESPONSE_LIMIT || ('\n' in buffer && protocol.decode(Trim(buffer)).None?))
    {
      buffer := buffer + chunk;
      kill := false;
      if controlled {
        if Trim(buffer) == protocol.marker { acknowledged := true; }
        else if |buffer| > RESPONSE_LIMIT || '\n' in buffer { kill := true; }
        return;
      }
      if |buffer| > RESPONSE_LIMIT {
        RejectReady();
        kill := true;
        return;
      }
      if '\n' in buffer {
        match protocol.decode(Trim(buffer))
        case Some((snapshot, pid)) =>
          if ready.Waiting? { ready := Exported(snapshot, pid); }
        case None =>
          RejectReady();
          kill := true;
      }
    }

    method RejectReady()
      modifies this`ready
      ensures ready == Refuse(old(ready))
    {
      if ready.Waiting? { ready := Refused; }
    }

    method OnClose(code: Exit)
      requires !code.Running?
      modifies this
      ensures Now() == AfterClose(old(Now()), code)
    {
      closed := true;
      if !controlled {
        RejectReady();
        lostEarly := true;
      }
      if exit.Running? { exit := code; }
    }

    method OnSpawnError()
      modifies this
      ensures Now() == AfterSpawnError(old(Now()))
    {
      closed := true;
      lostEarly := lostEarly || !controlled;
      RejectReady();
      if exit.Running? { exit := NoCode; }
    }

    method AssertAlive() returns (ok: bool)
      ensures ok <==> !closed
    {
      ok := !closed;
    }

    /** The first half of closing: refused once the process has ended, else rollback is requested. */
    method RequestClose() returns (ok: bool)
      modifies this
      ensures ok <==> !old(closed)
      ensures Now() == if ok then AfterCloseRequest(old(Now())) else old(Now())
    {
      if closed { return false; }
      controlled := true;
      buffer := "";
      ok := true;
    }

    /** The second half, once the exit is known. */
    method ConfirmClose() returns (ok: bool)
      requires !exit.Running?
      ensures ok <==> CleanExit(Now())
    {
      ok := exit == Exited(0) && acknowledged;
    }
  }

  predicate CleanExit(k: Keeper) { k.exit == Exited(0) && k.acknowledged }

  // ---- The capture run ---------------------------------------------------------------------------

  /** The steps of the capture, in order; some check values read from the database. */
  datatype Task =
    | Prepare | FirstBoundary | ClientVersions | Export | Inspect | Dump | Toc | Dlq | Migration
    | FinalCatalog | FinalSequences | LiveCatalog | LiveTypes | LastBoundary | Revision | Parse
    | Close | Write | Assemble

  function Following(t: Task): Task {
    match t
    case Prepare => FirstBoundary
    case FirstBoundary => ClientVersions
    case ClientVersions => Export
    case Export => Inspect
    case Inspect => Dump
    case Dump => Toc
    case Toc => Dlq
    case Dlq => Migration
    case Migration => FinalCatalog
    case FinalCatalog => FinalSequences
    case FinalSequences => LiveCatalog
    case LiveCatalog => LiveTypes
    case LiveTypes => LastBoundary
    case LastBoundary => Revision
    case Revision => Parse
    case Parse => Close
    case Close => Write
    case Write => Assemble
    case Assemble => Assemble
  }

  /** The keeper is checked to be alive right after these steps. */
  predicate ChecksAlive(t: Task) { t in {Inspect, Dump, Migration, LastBoundary, Parse} }

  /** `At` runs a step, `Recovering` waits for the keeper to end after a failure. */
  datatype Stage = At(task: Task) | Recovering | Succeeded | Failed

  type Columns = map<string, string>   // column name to rendered type chain

  datatype Inventory = Inventory(sequences: string, tables: map<string, Columns>)

  datatype Facts = Facts(
    first: Option<string>, inventory: Option<Inventory>, catalog: Option<string>, sequences: Option<string>,
    liveCatalog: Option<string>, liveTables: Option<map<string, Columns>>, last: Option<string>)

  datatype Files = Files(sealedWith: Option<string>, incomplete: bool, failure: bool)

  /** `held` says that the run still owns a keeper it has to close. */
  datatype State = State(stage: Stage, keeper: Option<Keeper>, held: bool, facts: Facts, files: Files)

  /** What a step brings back when it does not throw. */
  datatype Value = Nothing | Text(text: string) | Inspected(inventory: Inventory) | Typed(tables: map<string, Columns>)

  datatype Event =
    | Data(chunk: string) | ProcessEnds(code: Exit) | SpawnFails | ReadyDeadline | InputFails
    | Returns(value: Value) | Throws | Continue

  const INITIAL := State(At(Prepare), None, false, Facts(None, None, None, None, None, None, None), Files(None, false, false))

  /** Every live column is captured, with the same chain. */
  predicate TypesUnchanged(captured: map<string, Columns>, live: map<string, Columns>) {
    forall t :: t in live ==>
      (t in captured && forall c :: c in live[t] ==> c in captured[t] && captured[t][c] == live[t][c])
  }

  function KeeperEvent(p: Protocol, k: Keeper, e: Event): Keeper {
    match e
    case Data(chunk) => AfterData(p, k, chunk)
    case ProcessEnds(code) => AfterClose(k, code)
    case SpawnFails => AfterSpawnError(k)
    case ReadyDeadline => AfterRefusal(k)
    case InputFails => AfterRefusal(k)
    case _ => k
  }

  predicate FromProcess(e: Event) {
    e.Data? || (e.ProcessEnds? && !e.code.Running?) || e.SpawnFails? || e.ReadyDeadline? || e.InputFails?
  }

  /** The catch block: an owned keeper is asked to close first, then the failure file is written. */
  function Abort(s: State): State {
    if s.held && s.keeper.Some? && !s.keeper.value.closed
    then s.(stage := Recovering, keeper := Some(AfterCloseRequest(s.keeper.value)))
    else s.(stage := Failed, held := false, files := s.files.(failure := true))
  }

  /** Records what a finished step observed, or None when the step rejects it. */
  function Record(f: Facts, t: Task, v: Value): Option<Facts> {
    match (t, v)
    case (FirstBoundary, Text(x)) => Some(f.(first := Some(x)))
    case (Inspect, Inspected(x)) => Some(f.(inventory := Some(x)))
    case (FinalCatalog, Text(x)) => Some(f.(catalog := Some(x)))
    case (FinalSequences, Text(x)) =>
      if f.inventory.Some? && x == f.inventory.value.sequences then Some(f.(sequences := Some(x))) else None
    case (LiveCatalog, Text(x)) => if f.catalog == Some(x) then Some(f.(liveCatalog := Some(x))) else None
    case (LiveTypes, Typed(x)) =>
      if f.inventory.Some? && TypesUnchanged(f.inventory.value.tables, x) then Some(f.(liveTables := Some(x))) else None
    case (LastBoundary, Text(x)) => Some(f.(last := Some(x)))
    case (_, Nothing) =>
      if t in {Prepare, ClientVersions, Dump, Toc, Dlq, Migration, Revision, Parse} then Some(f) else None
    case _ => None
  }

  /** A step that has returned: record it, check the keeper where the run does, move on. */
  function Finish(s: State, t: Task, v: Value): State {
    match Record(s.facts, t, v)
    case None => Abort(s)
    case Some(facts) =>
      var recorded := s.(facts := facts);
      if ChecksAlive(t) && s.keeper.Some? && s.keeper.value.closed then Abort(recorded)
      else if t == ClientVersions then recorded.(stage := At(Export), keeper := Some(SPAWNED))
      else if t == Parse then
        if s.keeper.Some? && !s.keeper.value.closed
        then recorded.(stage := At(Close), keeper := Some(AfterCloseRequest(s.keeper.value)))
        else Abort(recorded)
      else recorded.(stage := At(Following(t)))
  }

  /** A pending await continues once its promise is settled. */
  function Resume(s: State): State {
    match (s.stage, s.keeper)
    case (At(Export), Some(k)) =>
      if k.ready.Exported? then s.(stage := At(Inspect), held := true)
      else if k.ready.Refused? && !k.exit.Running? then Abort(s)
      else s
    case (At(Close), Some(k)) =>
      if k.exit.Running? then s
      else if CleanExit(k) then s.(stage := At(Write), held := false)
      else Abort(s)
    case (Recovering, Some(k)) =>
      if k.exit.Running? then s else s.(stage := Failed, held := false, files := s.files.(failure := true))
    case _ => s
  }

  function Step(p: Protocol, s: State, e: Event): State {
    if FromProcess(e) then
      if s.keeper.Some? then s.(keeper := Some(KeeperEvent(p, s.keeper.value, e))) else s
    else if s.stage.Recovering? || s.stage.Succeeded? || s.stage.Failed? then
      if e.Continue? then Resume(s) else s
    else
      var t := s.stage.task;
      match t
      case Export => if e.Continue? then Resume(s) else s
      case Close => if e.Continue? then Resume(s) else s
      case Write =>
        if e.Throws? then Abort(s)
        else if e.Returns? && s.keeper.Some? && s.keeper.value.ready.Exported? then
          s.(stage := At(Assemble), files := s.files.(sealedWith := Some(s.keeper.value.ready.snapshot)))
        else s
      case Assemble =>
        if e.Throws? then s.(stage := Failed, files := Files(None, true, true))
        else if e.Returns? then s.(stage := Succeeded)
        else s
      case _ =>
        if e.Throws? then Abort(s)
        else if e.Returns? then Finish(s, t, e.value)
        else s
  }

  function Run(p: Protocol, s: State, events: seq<Event>): State
    decreases |events|
  {
    if events == [] then s else Step(p, Run(p, s, events[..|events| - 1]), events[|events| - 1])
  }

  // ---- What every run keeps -----------------------------------------------------------------------

  function Rank(t: Task): nat {
    match t
    case Prepare => 0 case FirstBoundary => 1 case ClientVersions => 2 case Export => 3 case Inspect => 4
    case Dump => 5 case Toc => 6 case Dlq => 7 case Migration => 8 case FinalCatalog => 9
    case FinalSequences => 10 case LiveCatalog => 11 case LiveTypes => 12 case LastBoundary => 13
    case Revision => 14 case Parse => 15 case Close => 16 case Write => 17 case Assemble => 18
  }

  /** The task has been completed when the run stands at rank `r`. */
  predicate Observed(f: Facts, r: nat) {
    && (r > Rank(FirstBoundary) ==> f.first.Some?)
    && (r > Rank(Inspect) ==> f.inventory.Some?)
    && (r > Rank(FinalCatalog) ==> f.catalog.Some?)
    && (r > Rank(FinalSequences) ==> f.inventory.Some? && f.sequences == Some(f.inventory.value.sequences))
    && (r > Rank(LiveCatalog) ==> f.catalog.Some? && f.liveCatalog == f.catalog)
    && (r > Rank(LiveTypes) ==>
          f.inventory.Some? && f.liveTables.Some? && TypesUnchanged(f.inventory.value.tables, f.liveTables.value))
    && (r > Rank(LastBoundary) ==> f.last.Some?)
  }

  /** The keeper's condition when the run stands at rank `r`. */
  predicate KeeperAt(s: State, r: nat) {
    && (r >= Rank(Export) <==> s.keeper.Some?)
    && (s.keeper.Some? ==> (s.keeper.value.lostEarly ==> s.keeper.value.closed))
    && (s.keeper.Some? ==> (s.keeper.value.controlled <==> r >= Rank(Close)))
    && (s.keeper.Some? && r > Rank(Export) ==> s.keeper.value.ready.Exported?)
    && (s.held <==> Rank(Export) < r <= Rank(Close))
    && (r >= Rank(Close) ==> s.keeper.Some? && !s.keeper.value.lostEarly)
    && (r > Rank(Close) ==> s.keeper.Some? && CleanExit(s.keeper.value))
  }

  const NO_FILES := Files(None, false, false)

  predicate Inv(s: State) {
    match s.stage
    case At(t) =>
      && Observed(s.facts, Rank(t)) && KeeperAt(s, Rank(t))
      && (if t == Assemble then s.files == SealedFiles(s) else s.files == NO_FILES)
    case Succeeded =>
      Observed(s.facts, Rank(Assemble)) && KeeperAt(s, Rank(Assemble)) && s.files == SealedFiles(s)
    case Recovering => s.keeper.Some? && s.files == NO_FILES
    case Failed => s.files.sealedWith == None && s.files.failure
  }

  function SealedFiles(s: State): Files {
    Files(if s.keeper.Some? && s.keeper.value.ready.Exported? then Some(s.keeper.value.ready.snapshot) else None, false, false)
  }

  lemma AbortKeeps(s: State)
    requires s.files == NO_FILES
    ensures Inv(Abort(s))
  {
  }

  lemma ProcessKeeps(p: Protocol, s: State, e: Event)
    requires Inv(s) && FromProcess(e)
    ensures Inv(Step(p, s, e))
  {
    hide TypesUnchanged, Trim;
  }

  lemma ResumeKeeps(s: State)
    requires Inv(s)
    ensures Inv(Resume(s))
  {
    hide TypesUnchanged;
  }

  lemma RecordObserves(f: Facts, t: Task, v: Value)
    requires Observed(f, Rank(t)) && Record(f, t, v).Some?
    ensures Observed(Record(f, t, v).value, Rank(t) + 1)
  {
    hide TypesUnchanged;
  }

  lemma FinishKeeps(s: State, t: Task, v: Value)
    requires Inv(s) && s.stage == At(t) && t !in {Export, Close, Write, Assemble}
    ensures Inv(Finish(s, t, v))
  {
    hide TypesUnchanged, Observed, Record;
    assert Rank(Following(t)) == Rank(t) + 1;
    if Record(s.facts, t, v).Some? {
      RecordObserves(s.facts, t, v);
      AbortKeeps(s.(facts := Record(s.facts, t, v).value));
    } else {
      AbortKeeps(s);
    }
  }

  lemma StepKeeps(p: Protocol, s: State, e: Event)
    requires Inv(s)
    ensures Inv(Step(p, s, e))
  {
    hide TypesUnchanged, Observed;
    if FromProcess(e) {
      ProcessKeeps(p, s, e);
    } else {
      ResumeKeeps(s);
      if s.stage.At? && s.stage.task !in {Export, Close, Write, Assemble} && e.Returns? {
        FinishKeeps(s, s.stage.task, e.value);
      }
      if s.stage.At? && s.stage.task != Assemble { AbortKeeps(s); }
      if s.stage == At(Write) { WriteObserves(s.facts); }
    }
  }

  lemma WriteObserves(f: Facts)
    ensures Observed(f, Rank(Write)) ==> Observed(f, Rank(Assemble))
  {
  }

  lemma {:induction false} RunKeeps(p: Protocol, events: seq<Event>)
    ensures Inv(Run(p, INITIAL, events))
    decreases |events|
  {
    hide Inv;
    if events == [] {
      InitialInv();
    } else {
      RunKeeps(p, events[..|events| - 1]);
      StepKeeps(p, Run(p, INITIAL, events[..|events| - 1]), events[|events| - 1]);
    }
  }

  lemma InitialInv()
    ensures Inv(INITIAL)
  {
  }

  // ---- Safety over every run ---------------------------------------------------------------------------

  /** Everything a sealed manifest vouches for. */
  predicate Vouched(s: State) {
    && s.facts.first.Some? && s.facts.last.Some? && s.facts.inventory.Some?
    && s.facts.sequences == Some(s.facts.inventory.value.sequences)
    && s.facts.catalog.Some? && s.facts.liveCatalog == s.facts.catalog
    && s.facts.liveTables.Some?
    && (forall t :: t in s.facts.liveTables.value ==> t in s.facts.inventory.value.tables)
    && (forall t, c :: t in s.facts.liveTables.value && c in s.facts.liveTables.value[t] ==>
          && c in s.facts.inventory.value.tables[t]
          && s.facts.inventory.value.tables[t][c] == s.facts.liveTables.value[t][c])
    && s.keeper.Some?
    && var k := s.keeper.value;
       && k.ready.Exported? && s.files.sealedWith == Some(k.ready.snapshot)
       && !k.lostEarly && k.controlled && k.exit == Exited(0) && k.acknowledged
  }

  /**
   * However keeper events and capture steps interleave: a sealed manifest exists only after the
   * keeper lived until its controlled rollback, that rollback was acknowledged with exit code 0, every
   * re-check matched what was captured, and both boundary observations were made.
   */
  lemma SealedOnlyWhenVouched(p: Protocol, events: seq<Event>)
    requires Run(p, INITIAL, events).files.sealedWith.Some?
    ensures Vouched(Run(p, INITIAL, events))
  {
    hide Run;
    RunKeeps(p, events);
  }

  /** A finished run leaves exactly one of the two artifacts: the sealed manifest, or the failure record. */
  lemma OneArtifactPerOutcome(p: Protocol, events: seq<Event>)
    ensures
      var s := Run(p, INITIAL, events);
      && (s.stage.Succeeded? ==> s.files.sealedWith.Some? && !s.files.failure)
      && (s.stage.Failed? ==> s.files.sealedWith.None? && s.files.failure)
      && (s.files.failure ==> s.stage.Failed?)
      && !(s.files.sealedWith.Some? && s.files.failure)
  {
    hide TypesUnchanged, Run;
    RunKeeps(p, events);
  }

  lemma RunSnoc(p: Protocol, events: seq<Event>, e: Event)
    ensures Run(p, INITIAL, events + [e]) == Step(p, Run(p, INITIAL, events), e)
  {
    assert (events + [e])[..|events|] == events;
  }

  /** Some run does seal a manifest. */
  lemma SomeRunSeals()
    ensures exists p, events :: Run(p, INITIAL, events).stage.Succeeded?
  {
    hide Run, Step;
    var p := Protocol("done", (s: string) => Some(("1-1-1", 7)));
    var events, s := SealExport(p);
    events, s := SealInspect(p, events);
    events, s := SealRecheck(p, events);
    events, s := SealClose(p, events);
  }

  lemma After(p: Protocol, events: seq<Event>, s: State, e: Event) returns (more: seq<Event>, next: State)
    requires s == Run(p, INITIAL, events)
    ensures more == events + [e] && next == Step(p, s, e) && next == Run(p, INITIAL, more)
  {
    more, next := events + [e], Step(p, s, e);
    RunSnoc(p, events, e);
  }

  const CAPTURED := Inventory("seq", map[])
  const OPEN_KEEPER := SPAWNED.(buffer := "x\n", ready := Exported("1-1-1", 7))
  const MIDWAY := State(At(Inspect), Some(OPEN_KEEPER), true, INITIAL.facts.(first := Some("b1")), NO_FILES)
  const CHECKED := Facts(Some("b1"), Some(CAPTURED), Some("cat"), Some("seq"), Some("cat"), Some(map[]), Some("b2"))
  const CLOSING := State(At(Close), Some(AfterCloseRequest(OPEN_KEEPER)), true, CHECKED, NO_FILES)

  lemma EmptyRun(p: Protocol)
    ensures Run(p, INITIAL, []) == INITIAL
  {
  }

  lemma SealExport(p: Protocol) returns (events: seq<Event>, s: State)
    requires p.decode("x") == Some(("1-1-1", 7))
    ensures s == Run(p, INITIAL, events) && s == MIDWAY
  {
    hide Run, AfterData, TypesUnchanged;
    EmptyRun(p);
    events, s := After(p, [], INITIAL, Returns(Nothing));
    assert s == INITIAL.(stage := At(FirstBoundary));
    events, s := After(p, events, s, Returns(Text("b1")));
    assert s == INITIAL.(stage := At(ClientVersions), facts := INITIAL.facts.(first := Some("b1")));
    events, s := After(p, events, s, Returns(Nothing));
    assert s.stage == At(Export) && s.keeper == Some(SPAWNED);
    ResponseParses(p);
    events, s := After(p, events, s, Data("x\n"));
    assert s.keeper == Some(OPEN_KEEPER);
    events, s := After(p, events, s, Continue);
  }

  lemma ResponseParses(p: Protocol)
    requires p.decode("x") == Some(("1-1-1", 7))
    ensures AfterData(p, SPAWNED, "x\n") == OPEN_KEEPER
  {
    assert SPAWNED.buffer + "x\n" == "x\n" && "x\n"[1] == '\n';
    assert TrimRight("x\n") == TrimRight("x") == "x" by { assert "x\n"[..1] == "x"; }
  }

  lemma SealInspect(p: Protocol, before: seq<Event>) returns (events: seq<Event>, s: State)
    requires Run(p, INITIAL, before) == MIDWAY
    ensures s == Run(p, INITIAL, events)
    ensures s == MIDWAY.(stage := At(FinalCatalog), facts := MIDWAY.facts.(inventory := Some(CAPTURED)))
  {
    hide Run;
    events, s := After(p, before, MIDWAY, Returns(Inspected(CAPTURED)));
    assert s == MIDWAY.(stage := At(Dump), facts := MIDWAY.facts.(inventory := Some(CAPTURED)));
    ghost var held := s;
    events, s := After(p, events, s, Returns(Nothing));
    assert s == held.(stage := At(Toc));
    events, s := After(p, events, s, Returns(Nothing));
    assert s == held.(stage := At(Dlq));
    events, s := After(p, events, s, Returns(Nothing));
    assert s == held.(stage := At(Migration));
    events, s := After(p, events, s, Returns(Nothing));
  }

  lemma SealRecheck(p: Protocol, before: seq<Event>) returns (events: seq<Event>, s: State)
    requires Run(p, INITIAL, before) ==
      MIDWAY.(stage := At(FinalCatalog), facts := MIDWAY.facts.(inventory := Some(CAPTURED)))
    ensures s == Run(p, INITIAL, events) && s == CLOSING
  {
    hide Run;
    var from := Run(p, INITIAL, before);
    events, s := After(p, before, from, Returns(Text("cat")));
    assert s == from.(stage := At(FinalSequences), facts := from.facts.(catalog := Some("cat")));
    events, s := After(p, events, s, Returns(Text("seq")));
    assert s == from.(stage := At(LiveCatalog), facts := from.facts.(catalog := Some("cat"), sequences := Some("seq")));
    events, s := After(p, events, s, Returns(Text("cat")));
    assert s.stage == At(LiveTypes);
    events, s := After(p, events, s, Returns(Typed(map[])));
    assert s == from.(stage := At(LastBoundary), facts := CHECKED.(last := None));
    events, s := After(p, events, s, Returns(Text("b2")));
    assert s == from.(stage := At(Revision), facts := CHECKED);
    events, s := After(p, events, s, Returns(Nothing));
    assert s == from.(stage := At(Parse), facts := CHECKED);
    events, s := After(p, events, s, Returns(Nothing));
  }

  lemma SealClose(p: Protocol, before: seq<Event>) returns (events: seq<Event>, s: State)
    requires Run(p, INITIAL, before) == CLOSING && p.marker == "done"
    ensures s == Run(p, INITIAL, events) && s.stage.Succeeded?
  {
    hide Run, AfterData;
    var k := CLOSING.keeper.value;
    MarkerAcknowledges(p, k);
    events, s := After(p, before, CLOSING, Data("done"));
    assert s == CLOSING.(keeper := Some(k.(buffer := "done", acknowledged := true)));
    events, s := After(p, events, s, ProcessEnds(Exited(0)));
    assert s.stage == At(Close) && CleanExit(s.keeper.value) && s.keeper.value.ready.Exported?;
    events, s := After(p, events, s, Continue);
    assert s.stage == At(Write);
    events, s := After(p, events, s, Returns(Nothing));
    assert s.stage == At(Assemble);
    events, s := After(p, events, s, Returns(Nothing));
  }

  lemma MarkerAcknowledges(p: Protocol, k: Keeper)
    requires p.marker == "done" && k.controlled && k.buffer == ""
    ensures AfterData(p, k, "done") == k.(buffer := "done", acknowledged := true)
  {
    assert Trim("done") == "done";
    assert k.buffer + "done" == "done";
  }
}
