/**
 * The cutover gate over one cluster of projection kinds: backfill, audit, rebuild in one
 * transaction, and comparison of the live ids before and after.
 */
module CutoverGate {
  import opened Wrappers
  import opened GenesisBackfill

  /** A fold or a write-through shell may throw: an invariant reject is a verdict, anything else propagates. */
  datatype Throw = Quiet | Reject | Crash

  /** The reducers, and what checking the projection invariants of one row against a database throws. */
  datatype Projection = Projection(reduce: Reducer, throws: (Key, Store) -> Throw)

  /** Kinds whose shell deletes a row that folds to nothing only when the row has an anchor. */
  predicate Guarded(kind: Kind) { kind !in {Knowledge, KnowledgeEdge} }

  function Fold(p: Projection, s: Store, key: Key): Option<Row> { p.reduce(key, FedBy(s.log, key)) }

  function Named(e: Event): set<Key> {
    match e
    case Genesis(of, _) => {of}
    case Fact(_, _, named, _) => named
  }

  /** Every id a rebuild projects: live rows, rows that events name, and index anchors. */
  function Universe(s: Store, kind: Kind): set<Key> {
    LiveKeys(s, kind)
    + (set e, key | e in s.log && key in Named(e) && key.kind == kind :: key)
    + (set key | key in s.index && key.kind == kind && WritesIndex(kind))
  }

  function UniverseOf(s: Store, kinds: seq<Kind>): set<Key> {
    set kind, key | kind in kinds && key in Universe(s, kind) :: key
  }

  // ---- Audit ----------------------------------------------------------------------------------

  ghost predicate NoThrow(p: Projection, s: Store, kind: Kind) {
    forall key :: key in LiveKeys(s, kind) ==> p.throws(key, s) == Quiet
  }

  function Drifting(p: Projection, s: Store, kind: Kind): set<Key> {
    set key | key in s.rows && key.kind == kind && Drifts(p.reduce, s, key)
  }

  function Listed(keys: set<Key>, allow: set<Id>): set<Key> { set key | key in keys && key.id in allow }

  /** Compare the fold of every live row of a kind with the row. The first throw ends the audit. */
  method AuditKind(db: Database, p: Projection, kind: Kind, allow: set<Id>)
      returns (outcome: Throw, drift: seq<Id>, allowed: seq<Id>)
    ensures outcome == Quiet <==> NoThrow(p, db.Now(), kind)
    ensures outcome != Quiet ==> exists key :: key in LiveKeys(db.Now(), kind) && p.throws(key, db.Now()) == outcome
    ensures Distinct(drift) && Distinct(allowed)
    ensures outcome == Quiet ==>
              && Keys(kind, drift) == Drifting(p, db.Now(), kind) - Listed(Drifting(p, db.Now(), kind), allow)
              && Keys(kind, allowed) == Listed(Drifting(p, db.Now(), kind), allow)
  {
    hide Drifts;
    ghost var s := db.Now();
    var scan := db.Select(kind);
    drift, allowed := [], [];
    for i := 0 to |scan|
      invariant Distinct(drift) && Distinct(allowed)
      invariant forall id :: id in drift <==> id in scan[..i] && Key(kind, id) in Drifting(p, s, kind) && id !in allow
      invariant forall id :: id in allowed <==> id in scan[..i] && Key(kind, id) in Drifting(p, s, kind) && id in allow
      invariant forall id :: id in scan[..i] ==> p.throws(Key(kind, id), s) == Quiet
    {
      var key := Key(kind, scan[i]);
      assert scan[..i + 1] == scan[..i] + [scan[i]];
      assert scan[i] in scan && key in LiveKeys(s, kind);
      outcome := p.throws(key, db.Now());
      if outcome != Quiet {
        return;
      }
      if Drifts(p.reduce, db.Now(), key) {
        if scan[i] in allow {
          allowed := allowed + [scan[i]];
        } else {
          drift := drift + [scan[i]];
        }
      }
    }
    assert scan[..|scan|] == scan;
    AuditScanned(p, s, kind, scan);
    outcome := Quiet;
  }

  lemma AuditScanned(p: Projection, s: Store, kind: Kind, scan: seq<Id>)
    requires Keys(kind, scan) == LiveKeys(s, kind)
    ensures forall key :: key in LiveKeys(s, kind) <==> key.kind == kind && key.id in scan
    ensures forall key :: key in Drifting(p, s, kind) ==> key == Key(kind, key.id) && key.id in scan
  {
    hide Drifts;
    forall key ensures key in LiveKeys(s, kind) <==> key.kind == kind && key.id in scan
    {
      assert key in Keys(kind, scan) <==> key.kind == kind && key.id in scan;
    }
    forall key | key in Drifting(p, s, kind) ensures key == Key(kind, key.id) && key.id in scan
    {
      assert key in LiveKeys(s, kind);
    }
  }

  // ---- Rebuild --------------------------------------------------------------------------------

  /** What the write-through shell leaves in one row's place. */
  function Shell(p: Projection, s: Store, key: Key): Option<Row> {
    match Fold(p, s, key)
    case Some(row) => Some(row)
    case None =>
      if key in s.rows && Guarded(key.kind) && !Anchored(s, key) then Some(s.rows[key]) else None
  }

  /** The rows after the shells of `keys` have run on `s`: those replaced or deleted, all others as they were. */
  ghost predicate Rebuilt(p: Projection, s: Store, keys: set<Key>, rows: map<Key, Row>) {
    forall key :: RowRebuilt(p, s, keys, rows, key)
  }

  ghost predicate RowRebuilt(p: Projection, s: Store, keys: set<Key>, rows: map<Key, Row>, key: Key) {
    if key in keys then
      match Shell(p, s, key)
      case Some(row) => key in rows && rows[key] == row
      case None => key !in rows
    else
      && (key in rows <==> key in s.rows)
      && (key in rows ==> rows[key] == s.rows[key])
  }

  /** A shell reads the log, the index and its own row, so shells of different rows do not interfere. */
  lemma RebuildComposes(p: Projection, s: Store, first: set<Key>, t: Store, second: set<Key>, rows: map<Key, Row>)
    requires t.log == s.log && t.index == s.index && first !! second
    requires Rebuilt(p, s, first, t.rows) && Rebuilt(p, t, second, rows)
    ensures Rebuilt(p, s, first + second, rows)
  {
    forall key ensures RowRebuilt(p, s, first + second, rows, key)
    {
      assert RowRebuilt(p, s, first, t.rows, key);
      assert RowRebuilt(p, t, second, rows, key);
      assert Anchored(t, key) == Anchored(s, key);
      hide Anchored, Creates, FedBy;
    }
  }

  method Project(db: Database, p: Projection, key: Key) returns (outcome: Throw)
    modifies db`rows
    ensures outcome == p.throws(key, old(db.Now()))
    ensures outcome == Quiet ==> Rebuilt(p, old(db.Now()), {key}, db.rows)
    ensures outcome != Quiet ==> db.rows == old(db.rows)
  {
    hide Anchored, FedBy;
    outcome := p.throws(key, db.Now());
    if outcome != Quiet {
      return;
    }
    match Fold(p, db.Now(), key)
    case Some(row) =>
      db.rows := db.rows[key := row];
    case None =>
      if !Guarded(key.kind) || Anchored(db.Now(), key) {
        db.rows := db.rows - {key};
      }
  }

  /** Project the given ids, in any order; the first throw ends it. */
  method ProjectAll(db: Database, p: Projection, keys: set<Key>) returns (outcome: Throw)
    modifies db`rows
    ensures outcome == Quiet ==> Rebuilt(p, old(db.Now()), keys, db.rows)
    ensures outcome != Quiet ==> exists key, s :: p.throws(key, s) == outcome
  {
    hide Rebuilt;
    ghost var s := db.Now();
    NothingRebuilt(p, s);
    var rest := keys;
    assert keys - rest == {};
    while rest != {}
      invariant rest <= keys
      invariant db.log == s.log && db.index == s.index
      invariant Rebuilt(p, s, keys - rest, db.rows)
      decreases |rest|
    {
      var key :| key in rest;
      ghost var t := db.Now();
      outcome := Project(db, p, key);
      if outcome != Quiet {
        return;
      }
      RebuildComposes(p, s, keys - rest, t, {key}, db.rows);
      assert keys - rest + {key} == keys - (rest - {key});
      rest := rest - {key};
    }
    assert keys - rest == keys;
    outcome := Quiet;
  }

  /** Project every id of each kind, kind after kind; the first throw ends it. */
  method RebuildKinds(db: Database, p: Projection, kinds: seq<Kind>) returns (outcome: Throw)
    requires Once(kinds)
    modifies db`rows
    ensures outcome == Quiet ==> Rebuilt(p, old(db.Now()), UniverseOf(old(db.Now()), kinds), db.rows)
    ensures outcome != Quiet ==> exists key, s :: p.throws(key, s) == outcome
  {
    hide Rebuilt, Universe, Once;
    ghost var s := db.Now();
    NothingRebuilt(p, s);
    assert UniverseOf(s, kinds[..0]) == {};
    for i := 0 to |kinds|
      invariant db.log == s.log && db.index == s.index
      invariant Rebuilt(p, s, UniverseOf(s, kinds[..i]), db.rows)
    {
      ghost var t := db.Now();
      UniverseGrows(s, t, kinds, i, p);
      outcome := ProjectAll(db, p, Universe(db.Now(), kinds[i]));
      if outcome != Quiet {
        return;
      }
      RebuildComposes(p, s, UniverseOf(s, kinds[..i]), t, Universe(t, kinds[i]), db.rows);
    }
    assert kinds[..|kinds|] == kinds;
    outcome := Quiet;
  }

  lemma NothingRebuilt(p: Projection, s: Store)
    ensures Rebuilt(p, s, {}, s.rows)
  {
  }

  /** Rebuilding some kinds leaves the ids to project of another kind as they were. */
  lemma UniverseGrows(s: Store, t: Store, kinds: seq<Kind>, i: nat, p: Projection)
    requires i < |kinds| && Once(kinds)
    requires t.log == s.log && t.index == s.index
    requires Rebuilt(p, s, UniverseOf(s, kinds[..i]), t.rows)
    ensures Universe(t, kinds[i]) == Universe(s, kinds[i])
    ensures Universe(t, kinds[i]) !! UniverseOf(s, kinds[..i])
    ensures UniverseOf(s, kinds[..i + 1]) == UniverseOf(s, kinds[..i]) + Universe(s, kinds[i])
  {
    hide Shell, Named;
    var kind, done := kinds[i], UniverseOf(s, kinds[..i]);
    assert kinds[..i + 1] == kinds[..i] + [kind];
    forall key: Key | key.kind == kind ensures key in t.rows <==> key in s.rows
    {
      assert key !in done;
      assert RowRebuilt(p, s, done, t.rows, key);
    }
    assert LiveKeys(t, kind) == LiveKeys(s, kind);
  }

  // ---- The gate -------------------------------------------------------------------------------

  datatype Verdict = Verdict(clean: bool, drift: nat, allowed: nat, rejected: bool)

  /** `Propagated` is an exception the gate does not turn into a verdict. */
  datatype Report =
    | Propagated
    | Report(go: bool, audit: Verdict, rebuilt: bool, deleted: set<Key>, created: set<Key>)

  /** Every fold of a live row runs without a throw and agrees with the row, allowlisted rows aside. */
  ghost predicate CleanAudit(p: Projection, s: Store, kinds: seq<Kind>, allow: set<Id>) {
    forall key :: key in LiveOf(s, kinds) ==> CleanRow(p, s, allow, key)
  }

  ghost predicate CleanRow(p: Projection, s: Store, allow: set<Id>, key: Key)
    requires key in s.rows
  {
    p.throws(key, s) == Quiet && (key.id in allow || !Drifts(p.reduce, s, key))
  }

  method Audit(db: Database, p: Projection, kinds: seq<Kind>, allow: set<Id>)
      returns (outcome: Throw, drift: nat, allowed: nat)
    ensures outcome == Quiet && drift == 0 <==> CleanAudit(p, db.Now(), kinds, allow)
    ensures outcome != Quiet ==> exists key, s :: p.throws(key, s) == outcome
  {
    hide Drifts, Keys, Drifting;
    outcome, drift, allowed := Quiet, 0, 0;
    ghost var s := db.Now();
    for i := 0 to |kinds|
      invariant outcome == Quiet
      invariant drift == 0 <==> CleanAudit(p, s, kinds[..i], allow)
    {
      assert kinds[..i + 1] == kinds[..i] + [kinds[i]];
      CleanAuditGrows(p, s, kinds, i, allow);
      var drifted, permitted;
      outcome, drifted, permitted := AuditKind(db, p, kinds[i], allow);
      if outcome != Quiet {
        NoisyAudit(p, s, kinds, i, allow);
        return;
      }
      NoDriftIffClean(p, s, kinds[i], allow, drifted);
      drift, allowed := drift + |drifted|, allowed + |permitted|;
    }
    assert kinds[..|kinds|] == kinds;
  }

  ghost predicate CleanKind(p: Projection, s: Store, kind: Kind, allow: set<Id>) {
    forall key :: key in LiveKeys(s, kind) ==> CleanRow(p, s, allow, key)
  }

  lemma CleanAuditGrows(p: Projection, s: Store, kinds: seq<Kind>, i: nat, allow: set<Id>)
    requires i < |kinds|
    ensures CleanAudit(p, s, kinds[..i + 1], allow)
       <==> CleanAudit(p, s, kinds[..i], allow) && CleanKind(p, s, kinds[i], allow)
  {
    hide CleanRow;
    assert kinds[..i + 1] == kinds[..i] + [kinds[i]];
    assert LiveOf(s, kinds[..i + 1]) == LiveOf(s, kinds[..i]) + LiveKeys(s, kinds[i]);
  }

  lemma NoisyAudit(p: Projection, s: Store, kinds: seq<Kind>, i: nat, allow: set<Id>)
    requires i < |kinds| && !NoThrow(p, s, kinds[i])
    ensures !CleanAudit(p, s, kinds, allow)
  {
    hide Drifts;
    var key :| key in LiveKeys(s, kinds[i]) && p.throws(key, s) != Quiet;
    assert key in LiveOf(s, kinds) && !CleanRow(p, s, allow, key);
  }

  lemma NoDriftIffClean(p: Projection, s: Store, kind: Kind, allow: set<Id>, drifted: seq<Id>)
    requires NoThrow(p, s, kind)
    requires Keys(kind, drifted) == Drifting(p, s, kind) - Listed(Drifting(p, s, kind), allow)
    ensures |drifted| == 0 <==> CleanKind(p, s, kind, allow)
  {
    hide Drifts;
    if |drifted| == 0 {
      forall key | key in LiveKeys(s, kind) ensures CleanRow(p, s, allow, key)
      {
        assert key !in Keys(kind, drifted);
      }
    } else {
      var key := Key(kind, drifted[0]);
      assert key in Keys(kind, drifted);
      assert key in LiveKeys(s, kind) && !CleanRow(p, s, allow, key);
    }
  }

  /** A completed backfill leaves no live row of its kinds without an anchor. */
  lemma AllAnchored(s: Store, t: Store, parses: Barrier, kinds: seq<Kind>)
    requires Handles(s, t, parses, LiveOf(s, kinds))
    requires forall key :: key in LiveOf(s, kinds) ==> !Fails(s, parses, key)
    ensures forall key :: key in LiveOf(t, kinds) ==> Anchored(t, key)
  {
    forall key | key in LiveOf(t, kinds) ensures Anchored(t, key)
    {
      AnchoredAfter(s, t, parses, LiveOf(s, kinds), key);
    }
  }

  /**
   * The exact condition of a GO: every live row folds without a throw to a row, to itself unless it
   * is allowlisted, and no id that events or the index still name folds to a row that is not live.
   */
  ghost predicate Faithful(p: Projection, s: Store, kinds: seq<Kind>, allow: set<Id>) {
    forall key :: key in UniverseOf(s, kinds) ==> FaithfulRow(p, s, allow, key)
  }

  ghost predicate FaithfulRow(p: Projection, s: Store, allow: set<Id>, key: Key) {
    if key in s.rows then
      && p.throws(key, s) == Quiet
      && Fold(p, s, key).Some?
      && (key.id in allow || Fold(p, s, key) == Some(s.rows[key]))
    else Fold(p, s, key).None?
  }

  lemma InUniverse(s: Store, kinds: seq<Kind>)
    ensures LiveOf(s, kinds) <= UniverseOf(s, kinds)
    ensures forall key :: key in UniverseOf(s, kinds) ==> key.kind in kinds
  {
    hide Named;
    forall key | key in LiveOf(s, kinds) ensures key in UniverseOf(s, kinds)
    {
      assert key in Universe(s, key.kind);
    }
  }

  /** Clean audit and unchanged ids hold together exactly when the event log is faithful to the rows. */
  lemma GoIffFaithful(p: Projection, s: Store, kinds: seq<Kind>, allow: set<Id>, rows: map<Key, Row>)
    requires Rebuilt(p, s, UniverseOf(s, kinds), rows)
    requires forall key :: key in LiveOf(s, kinds) ==> Anchored(s, key)
    ensures CleanAudit(p, s, kinds, allow) && LiveOf(s.(rows := rows), kinds) == LiveOf(s, kinds)
       <==> Faithful(p, s, kinds, allow)
  {
    var all := UniverseOf(s, kinds);
    InUniverse(s, kinds);
    hide Anchored, FedBy, UniverseOf;
    if Faithful(p, s, kinds, allow) {
      forall key | key in LiveOf(s, kinds) ensures CleanRow(p, s, allow, key)
      {
        assert FaithfulRow(p, s, allow, key);
      }
      forall key ensures key in LiveOf(s.(rows := rows), kinds) <==> key in LiveOf(s, kinds)
      {
        assert RowRebuilt(p, s, all, rows, key);
        assert key in all ==> FaithfulRow(p, s, allow, key);
      }
    }
    if CleanAudit(p, s, kinds, allow) && LiveOf(s.(rows := rows), kinds) == LiveOf(s, kinds) {
      forall key | key in all ensures FaithfulRow(p, s, allow, key)
      {
        assert RowRebuilt(p, s, all, rows, key);
        assert key in LiveOf(s.(rows := rows), kinds) <==> key in LiveOf(s, kinds);
        assert key in LiveOf(s, kinds) ==> CleanRow(p, s, allow, key);
      }
    }
  }

  /** What a GO means for the rows: the same ids, and every row outside the allowlist as it was. */
  lemma GoKeepsRows(p: Projection, s: Store, kinds: seq<Kind>, allow: set<Id>, rows: map<Key, Row>)
    requires Rebuilt(p, s, UniverseOf(s, kinds), rows)
    requires CleanAudit(p, s, kinds, allow) && LiveOf(s.(rows := rows), kinds) == LiveOf(s, kinds)
    ensures rows.Keys == s.rows.Keys
    ensures forall key :: key in rows && (key.kind in kinds ==> key.id !in allow) ==> rows[key] == s.rows[key]
  {
    var all := UniverseOf(s, kinds);
    InUniverse(s, kinds);
    hide Anchored, FedBy, UniverseOf;
    forall key ensures key in rows <==> key in s.rows
    {
      assert RowRebuilt(p, s, all, rows, key);
      assert key in LiveOf(s.(rows := rows), kinds) <==> key in LiveOf(s, kinds);
    }
    forall key | key in rows && (key.kind in kinds ==> key.id !in allow) ensures rows[key] == s.rows[key]
    {
      assert RowRebuilt(p, s, all, rows, key);
      if key.kind in kinds {
        assert key in LiveOf(s, kinds) && CleanRow(p, s, allow, key);
      }
    }
  }

  /** The gate's audit finds the drift there was before the backfill. */
  lemma CleanAuditMeansNoPriorDrift(
      p: Projection, s: Store, t: Store, parses: Barrier, kinds: seq<Kind>, allow: set<Id>, key: Key)
    requires Handles(s, t, parses, LiveOf(s, kinds)) && CleanAudit(p, t, kinds, allow)
    requires key in LiveOf(s, kinds) && key.id !in allow && Anchored(s, key)
    ensures !Drifts(p.reduce, s, key)
  {
    assert key in LiveOf(t, kinds) && CleanRow(p, t, allow, key);
    FoldReadsAfter(s, t, parses, LiveOf(s, kinds), key);
  }

  /**
   * Why the audit comes before the rebuild: after one, no row drifts from its fold, whatever the
   * reducers computed, so an audit placed there would find nothing.
   */
  lemma AuditAfterRebuildFindsNothing(p: Projection, s: Store, kinds: seq<Kind>, rows: map<Key, Row>)
    requires Rebuilt(p, s, UniverseOf(s, kinds), rows)
    requires forall key :: key in LiveOf(s, kinds) ==> Anchored(s, key)
    ensures forall kind :: kind in kinds ==> Drifting(p, s.(rows := rows), kind) == {}
  {
    var all := UniverseOf(s, kinds);
    InUniverse(s, kinds);
    hide Anchored, FedBy, UniverseOf;
    forall key | key in rows && key.kind in kinds ensures !Drifts(p.reduce, s.(rows := rows), key)
    {
      assert RowRebuilt(p, s, all, rows, key);
    }
  }

  /** A reducer that has drifted from the row: the audit before the rebuild is the only step that sees it. */
  lemma OnlyTheEarlyAuditSeesDrift(key: Key, live: Row, folded: Row, body: string)
      returns (p: Projection, s: Store, rows: map<Key, Row>)
    requires live != folded
    ensures Anchored(s, key) && s.rows == map[key := live] && rows == map[key := folded]
    ensures !CleanAudit(p, s, [key.kind], {})
    ensures Rebuilt(p, s, UniverseOf(s, [key.kind]), rows)
    ensures CleanAudit(p, s.(rows := rows), [key.kind], {})
    ensures LiveOf(s.(rows := rows), [key.kind]) == LiveOf(s, [key.kind])
  {
    var created := Fact({key}, {key}, {key}, body);
    s := Store(map[key := live], [created], {});
    p := Projection((k, events) => if k == key then Some(folded) else None, (k, t) => Quiet);
    rows := map[key := folded];
    assert created in s.log && Creates(created, key);
    assert key in LiveOf(s, [key.kind]) && !CleanRow(p, s, {}, key);
    InUniverse(s, [key.kind]);
    forall k ensures RowRebuilt(p, s, UniverseOf(s, [key.kind]), rows, k)
    {
      assert k == key ==> k in UniverseOf(s, [key.kind]);
      hide UniverseOf;
    }
  }

  /** No fold and no shell throws. */
  ghost predicate NeverThrows(p: Projection) { forall key, s :: p.throws(key, s) == Quiet }

  /**
   * The gate. `mid` is the database between backfill and rebuild, `handled` the rows the backfill got
   * to. GO holds exactly when the log is faithful, and then nothing outside the allowlist has changed;
   * a rebuild that is rejected, or any exception, leaves every row as it was.
   */
  method RunB3Gate(
      db: Database, kinds: seq<Kind>, p: Projection, parses: Barrier, faults: set<Key>, allow: set<Id>)
      returns (report: Report, ghost mid: Store, ghost handled: set<Key>)
    requires Once(kinds)
    modifies db
    ensures mid == Store(old(db.rows), db.log, db.index)
    ensures handled <= LiveOf(old(db.Now()), kinds) && Handles(old(db.Now()), mid, parses, handled)
    ensures report.Propagated? || !report.rebuilt ==> db.rows == old(db.rows)
    ensures report.Report? ==>
              && handled == LiveOf(old(db.Now()), kinds)
              && (report.audit.clean <==> CleanAudit(p, mid, kinds, allow))
              && report.deleted == LiveOf(old(db.Now()), kinds) - LiveOf(db.Now(), kinds)
              && report.created == LiveOf(db.Now(), kinds) - LiveOf(old(db.Now()), kinds)
              && (report.go <==> report.audit.clean && report.rebuilt && report.deleted + report.created == {})
    ensures report.Report? && report.rebuilt ==>
              && Rebuilt(p, mid, UniverseOf(mid, kinds), db.rows)
              && (report.go <==> Faithful(p, mid, kinds, allow))
    ensures report.Report? && report.go ==>
              && db.rows.Keys == old(db.rows).Keys
              && (forall key :: key in db.rows && (key.kind in kinds ==> key.id !in allow) ==>
                    db.rows[key] == old(db.rows)[key])
              && (forall key :: key in LiveOf(old(db.Now()), kinds) && key.id !in allow && Anchored(old(db.Now()), key) ==>
                    !Drifts(p.reduce, old(db.Now()), key))
    ensures NeverThrows(p) && (forall key :: key in LiveOf(old(db.Now()), kinds) ==>
              !Fails(old(db.Now()), parses, key) && !Hit(old(db.Now()), faults, key)) ==>
              report.Report? && report.rebuilt
  {
    hide Anchored, Drifts, Fails, Hit, Handles, CleanAudit, Rebuilt, UniverseOf, Faithful, Once;
    ghost var s := db.Now();
    var before := LiveOf(db.Now(), kinds);
    var complete;
    complete, handled := db.BackfillLanes(kinds, parses, faults);
    mid := db.Now();
    HandlesKeepsRows(s, mid, parses, handled);
    if !complete {
      return Propagated, mid, handled;
    }
    AllAnchored(s, mid, parses, kinds);

    var outcome, drift, allowed := Audit(db, p, kinds, allow);
    if outcome == Crash {
      return Propagated, mid, handled;
    }
    var verdict := Verdict(outcome == Quiet && drift == 0, drift, allowed, outcome == Reject);

    // One transaction: a throw restores the rows.
    var saved := db.rows;
    var rebuild := RebuildKinds(db, p, kinds);
    if rebuild != Quiet {
      db.rows := saved;
    }
    if rebuild == Crash {
      return Propagated, mid, handled;
    }

    var after := LiveOf(db.Now(), kinds);
    var deleted, created := before - after, after - before;
    var survived := deleted == {} && created == {};
    report := Report(verdict.clean && rebuild == Quiet && survived, verdict, rebuild == Quiet, deleted, created);
    if rebuild == Quiet {
      SurvivedIff(before, after);
      GoIffFaithful(p, mid, kinds, allow, db.rows);
      if report.go {
        GoKeepsRows(p, mid, kinds, allow, db.rows);
        forall key | key in LiveOf(s, kinds) && key.id !in allow && Anchored(s, key) ensures !Drifts(p.reduce, s, key)
        {
          CleanAuditMeansNoPriorDrift(p, s, mid, parses, kinds, allow, key);
        }
      }
    }
  }

  lemma HandlesKeepsRows(s: Store, t: Store, parses: Barrier, handled: set<Key>)
    requires Handles(s, t, parses, handled)
    ensures t.rows == s.rows
  {
  }

  lemma SurvivedIff(before: set<Key>, after: set<Key>)
    ensures before - after == {} && after - before == {} <==> before == after
  {
    if before - after == {} && after - before == {} {
      forall key ensures key in before <==> key in after
      {
        assert key !in before - after && key !in after - before;
      }
    }
  }
}
