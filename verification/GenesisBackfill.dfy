/**
 * Genesis backfill: one seed event for every row that no event or index anchor accounts for,
 * in per-row transactions that may stop anywhere and be run again.
 */
module GenesisBackfill {
  import opened Wrappers

  datatype Kind =
    | Knowledge | KnowledgeEdge | Goal | MistakeVariant
    | LearningItem | Artifact | QuestionBlock | ItemCalibration

  type Id = string

  datatype Key = Key(kind: Kind, id: Id)

  /** A row's structural snapshot; `hub` says that its parent reference is null. */
  datatype Row = Row(columns: string, hub: bool)

  /**
   * An event of the log. Of an event other than a genesis only three facts matter here: which
   * rows the anchor scan takes it to have created, which folds read it, and which rows the
   * rebuild discovers through it.
   */
  datatype Event =
    | Genesis(of: Key, row: Row)
    | Fact(creates: set<Key>, read: set<Key>, named: set<Key>, body: string)

  datatype Store = Store(rows: map<Key, Row>, log: seq<Event>, index: set<Key>)

  /** The kinds, in the order of a full run. */
  const BACKFILL_ORDER := [
    Knowledge, KnowledgeEdge, Goal, MistakeVariant, Artifact, LearningItem, QuestionBlock, ItemCalibration]

  /** Whether an index entry alone marks a row of this kind as event-sourced in the pre-scan. */
  predicate ReadsIndex(kind: Kind) { kind !in {KnowledgeEdge, QuestionBlock, ItemCalibration} }

  predicate WritesIndex(kind: Kind) { kind !in {QuestionBlock, ItemCalibration} }

  /** Whether the lane collects rows that fail the parse barrier and throws once, after the scan. */
  predicate Accumulates(kind: Kind) { kind in {Artifact, QuestionBlock, ItemCalibration} }

  predicate Creates(e: Event, key: Key) {
    match e
    case Genesis(of, _) => of == key
    case Fact(creates, _, _, _) => key in creates
  }

  predicate Feeds(e: Event, key: Key) {
    match e
    case Genesis(of, _) => of == key
    case Fact(_, read, _, _) => key in read
  }

  /** The row is event-sourced: an event created it, or the index holds an anchor for it. */
  predicate Anchored(s: Store, key: Key) {
    || (exists e :: e in s.log && Creates(e, key))
    || (ReadsIndex(key.kind) && key in s.index)
  }

  type Barrier = (Key, Row) -> bool

  /** The rows among `keys` that a backfill of `s` seeds. */
  function Fresh(s: Store, parses: Barrier, keys: set<Key>): set<Key> {
    set k | k in keys && k in s.rows && !Anchored(s, k) && parses(k, s.rows[k])
  }

  function LiveKeys(s: Store, kind: Kind): set<Key> { set k | k in s.rows && k.kind == kind }

  // ---- What a run leaves behind, in whatever order it went ------------------------------------

  function SeedEvents(s: Store, keys: set<Key>): set<Event>
    requires keys <= s.rows.Keys
  {
    set k | k in keys :: Genesis(k, s.rows[k])
  }

  function SeedAnchors(keys: set<Key>): set<Key> { set k | k in keys && WritesIndex(k.kind) }

  /**
   * `t` is `s` after every row of `keys` has been handled: the log has grown, at its end, by exactly
   * one genesis for each fresh row, the index by their anchors, and the rows are as they were.
   */
  ghost predicate Handles(s: Store, t: Store, parses: Barrier, keys: set<Key>) {
    && t.rows == s.rows
    && s.log <= t.log
    && t.index == s.index + SeedAnchors(Fresh(s, parses, keys))
    && multiset(t.log) == multiset(s.log) + multiset(SeedEvents(s, Fresh(s, parses, keys)))
  }

  /** The same database up to the order in which the events were appended. */
  ghost predicate SameUpToOrder(s: Store, t: Store) {
    s.rows == t.rows && s.index == t.index && multiset(s.log) == multiset(t.log)
  }

  lemma LogMembers(s: Store, t: Store, parses: Barrier, keys: set<Key>, e: Event)
    requires Handles(s, t, parses, keys)
    ensures e in t.log <==> e in s.log || e in SeedEvents(s, Fresh(s, parses, keys))
  {
    assert e in t.log <==> e in multiset(t.log);
    assert e in s.log <==> e in multiset(s.log);
  }

  /** A run anchors the rows it seeds and no others. */
  lemma AnchoredAfter(s: Store, t: Store, parses: Barrier, keys: set<Key>, key: Key)
    requires Handles(s, t, parses, keys)
    ensures Anchored(t, key) <==> Anchored(s, key) || key in Fresh(s, parses, keys)
  {
    var seeded := Fresh(s, parses, keys);
    if key in seeded {
      LogMembers(s, t, parses, keys, Genesis(key, s.rows[key]));
      assert Creates(Genesis(key, s.rows[key]), key);
    }
    if e :| e in s.log && Creates(e, key) {
      LogMembers(s, t, parses, keys, e);
    }
    if e :| e in t.log && Creates(e, key) {
      LogMembers(s, t, parses, keys, e);
    }
  }

  /** Handling one set of rows and then another is handling both. */
  lemma HandlesCompose(s: Store, t: Store, u: Store, parses: Barrier, first: set<Key>, second: set<Key>)
    requires Handles(s, t, parses, first) && Handles(t, u, parses, second)
    ensures Handles(s, u, parses, first + second)
  {
    hide Anchored;
    var a, b, both := Fresh(s, parses, first), Fresh(t, parses, second), Fresh(s, parses, first + second);
    forall key ensures key in both <==> key in a || key in b
    {
      AnchoredAfter(s, t, parses, first, key);
    }
    forall key ensures !(key in a && key in b)
    {
      AnchoredAfter(s, t, parses, first, key);
    }
    assert both == a + b && a !! b;
    assert SeedAnchors(both) == SeedAnchors(a) + SeedAnchors(b);
    assert SeedEvents(t, b) == SeedEvents(s, b);
    SeedsOfUnion(s, a, b);
  }

  lemma SeedsOfUnion(s: Store, a: set<Key>, b: set<Key>)
    requires a + b <= s.rows.Keys && a !! b
    ensures multiset(SeedEvents(s, a + b)) == multiset(SeedEvents(s, a)) + multiset(SeedEvents(s, b))
  {
    var both := SeedEvents(s, a + b);
    assert both == SeedEvents(s, a) + SeedEvents(s, b);
    forall e ensures !(e in SeedEvents(s, a) && e in SeedEvents(s, b))
    {
    }
  }

  /** Two runs over the same rows differ at most in the order of the events they appended. */
  lemma RunsAgree(s: Store, t: Store, u: Store, parses: Barrier, keys: set<Key>)
    requires Handles(s, t, parses, keys) && Handles(s, u, parses, keys)
    ensures SameUpToOrder(t, u)
  {
  }

  // ---- Any number of interruptions ------------------------------------------------------------

  /** A history of attempts: each handled some of `all` before it stopped. */
  ghost predicate Attempts(history: seq<Store>, parses: Barrier, all: set<Key>, done: seq<set<Key>>) {
    && |history| == |done| + 1
    && (forall i :: 0 <= i < |done| ==> Attempt(history, parses, all, done, i))
  }

  ghost predicate Attempt(history: seq<Store>, parses: Barrier, all: set<Key>, done: seq<set<Key>>, i: nat)
    requires |history| == |done| + 1 && i < |done|
  {
    done[i] <= all && Handles(history[i], history[i + 1], parses, done[i])
  }

  lemma {:induction false} AttemptsHandleSome(
      history: seq<Store>, parses: Barrier, all: set<Key>, done: seq<set<Key>>) returns (some: set<Key>)
    requires Attempts(history, parses, all, done)
    ensures some <= all && Handles(history[0], history[|done|], parses, some)
    decreases |done|
  {
    if done == [] {
      some := {};
      assert Fresh(history[0], parses, {}) == {};
    } else {
      var n := |done| - 1;
      assert Attempt(history, parses, all, done, n);
      var earlier, did := history[..n + 1], done[..n];
      forall i | 0 <= i < n ensures Attempt(earlier, parses, all, did, i)
      {
        assert Attempt(history, parses, all, done, i);
      }
      var before := AttemptsHandleSome(earlier, parses, all, did);
      HandlesCompose(history[0], history[n], history[n + 1], parses, before, done[n]);
      some := before + done[n];
    }
  }

  /**
   * However often the backfill was stopped, a run that completes leaves the database that one
   * uninterrupted run would have left, up to the order of the appended events.
   */
  lemma ResumedEqualsOneRun(
      history: seq<Store>, parses: Barrier, all: set<Key>, done: seq<set<Key>>, last: Store, once: Store)
    requires Attempts(history, parses, all, done)
    requires Handles(history[|done|], last, parses, all)
    requires Handles(history[0], once, parses, all)
    ensures SameUpToOrder(last, once)
  {
    var some := AttemptsHandleSome(history, parses, all, done);
    HandlesCompose(history[0], history[|done|], last, parses, some, all);
    assert some + all == all;
    RunsAgree(history[0], last, once, parses, all);
  }

  /** A run over rows that were all handled before changes nothing at all. */
  lemma FurtherRunChangesNothing(s: Store, t: Store, u: Store, parses: Barrier, all: set<Key>, again: set<Key>)
    requires Handles(s, t, parses, all) && Handles(t, u, parses, again) && again <= all
    ensures Fresh(t, parses, again) == {}
    ensures u == t
  {
    forall key | key in again && key in s.rows && parses(key, s.rows[key]) ensures Anchored(t, key)
    {
      AnchoredAfter(s, t, parses, all, key);
    }
    assert Fresh(t, parses, again) == {};
    assert multiset(u.log) == multiset(t.log);
    assert |u.log| == |multiset(u.log)| && |t.log| == |multiset(t.log)|;
  }

  /** A row that no anchor accounted for and that parses ends with exactly one genesis, its own. */
  lemma ExactlyOneGenesis(s: Store, t: Store, parses: Barrier, keys: set<Key>, key: Key)
    requires Handles(s, t, parses, keys) && key in Fresh(s, parses, keys)
    ensures multiset(t.log)[Genesis(key, s.rows[key])] == 1
    ensures forall e :: e in t.log && e.Genesis? && e.of == key ==> e.row == s.rows[key]
  {
    var own := Genesis(key, s.rows[key]);
    if e :| e in s.log && e.Genesis? && e.of == key {
      assert Creates(e, key);
    }
    assert own !in multiset(s.log);
    assert own in SeedEvents(s, Fresh(s, parses, keys));
    forall e | e in t.log && e.Genesis? && e.of == key ensures e.row == s.rows[key]
    {
      LogMembers(s, t, parses, keys, e);
    }
  }

  // ---- What the folds read afterwards ---------------------------------------------------------

  /** A reducer: the row that a list of events folds to, or nothing. */
  type Reducer = (Key, seq<Event>) -> Option<Row>

  /** A genesis sorts last and overwrites whatever the reducer had computed before it. */
  ghost predicate GenesisOverwrites(reduce: Reducer) {
    forall key, events, row :: reduce(key, events + [Genesis(key, row)]) == Some(row)
  }

  function FedBy(log: seq<Event>, key: Key): seq<Event> {
    if log == [] then []
    else (if Feeds(log[0], key) then [log[0]] else []) + FedBy(log[1..], key)
  }

  lemma {:induction false} FedByAppend(a: seq<Event>, b: seq<Event>, key: Key)
    ensures FedBy(a + b, key) == FedBy(a, key) + FedBy(b, key)
  {
    if a == [] {
      assert a + b == b;
    } else {
      assert (a + b)[0] == a[0] && (a + b)[1..] == a[1..] + b;
      FedByAppend(a[1..], b, key);
    }
  }

  lemma {:induction false} FedByNone(log: seq<Event>, key: Key)
    requires forall e :: e in log ==> !Feeds(e, key)
    ensures FedBy(log, key) == []
  {
    if log != [] {
      FedByNone(log[1..], key);
    }
  }

  lemma {:induction false} FedByOnly(log: seq<Event>, key: Key, own: Event)
    requires multiset(log)[own] == 1 && Feeds(own, key)
    requires forall e :: e in log && e != own ==> !Feeds(e, key)
    ensures FedBy(log, key) == [own]
  {
    assert own in log;
    assert log == [log[0]] + log[1..];
    if log[0] == own {
      assert own !in multiset(log[1..]);
      FedByNone(log[1..], key);
    } else {
      FedByOnly(log[1..], key, own);
    }
  }

  lemma SameRemainder<T>(base: multiset<T>, a: multiset<T>, b: multiset<T>)
    requires base + a == base + b
    ensures a == b
  {
    forall e ensures a[e] == b[e]
    {
      assert (base + a)[e] == base[e] + a[e] && (base + b)[e] == base[e] + b[e];
    }
  }

  /** A seeded row's fold reads its genesis last; the fold of every other row reads what it read before. */
  lemma FoldReadsAfter(s: Store, t: Store, parses: Barrier, keys: set<Key>, key: Key)
    requires Handles(s, t, parses, keys)
    ensures key !in Fresh(s, parses, keys) ==> FedBy(t.log, key) == FedBy(s.log, key)
    ensures key in Fresh(s, parses, keys) ==>
              FedBy(t.log, key) == FedBy(s.log, key) + [Genesis(key, s.rows[key])]
  {
    hide Anchored;
    var seeded := Fresh(s, parses, keys);
    var added := t.log[|s.log|..];
    assert t.log == s.log + added;
    assert multiset(s.log + added) == multiset(s.log) + multiset(added);
    assert multiset(t.log) == multiset(s.log) + multiset(added);
    SameRemainder(multiset(s.log), multiset(added), multiset(SeedEvents(s, seeded)));
    FedByAppend(s.log, added, key);
    forall e | e in added ensures e in SeedEvents(s, seeded)
    {
      assert e in multiset(added);
    }
    if key in seeded {
      FedByOnly(added, key, Genesis(key, s.rows[key]));
    } else {
      FedByNone(added, key);
    }
  }

  /** The live row is not what its events fold to. */
  predicate Drifts(reduce: Reducer, s: Store, key: Key)
    requires key in s.rows
  {
    reduce(key, FedBy(s.log, key)) != Some(s.rows[key])
  }

  /**
   * The backfill neither hides nor creates drift: an event-sourced row drifts after it exactly when
   * it drifted before, and a row that was seeded does not drift.
   */
  lemma BackfillKeepsDrift(reduce: Reducer, s: Store, t: Store, parses: Barrier, keys: set<Key>, key: Key)
    requires Handles(s, t, parses, keys) && key in s.rows && GenesisOverwrites(reduce)
    ensures Drifts(reduce, t, key) <==> Drifts(reduce, s, key) && key !in Fresh(s, parses, keys)
  {
    FoldReadsAfter(s, t, parses, keys, key);
  }

  /** Why event-sourced rows are skipped: a genesis for one would hide its drift. */
  lemma SeedingAnchoredRowsHidesDrift(reduce: Reducer, s: Store, key: Key)
    requires key in s.rows && GenesisOverwrites(reduce)
    ensures !Drifts(reduce, s.(log := s.log + [Genesis(key, s.rows[key])]), key)
  {
    var own := [Genesis(key, s.rows[key])];
    FedByAppend(s.log, own, key);
    assert FedBy(own, key) == own;
  }

  // ---- The order of one lane ------------------------------------------------------------------

  function Keys(kind: Kind, ids: seq<Id>): set<Key> { set id | id in ids :: Key(kind, id) }

  predicate Distinct(ids: seq<Id>) { forall i, j :: 0 <= i < j < |ids| ==> ids[i] != ids[j] }

  predicate AllLive(s: Store, kind: Kind, ids: seq<Id>) {
    forall id :: id in ids ==> Key(kind, id) in s.rows
  }

  predicate Seedable(s: Store, parses: Barrier, key: Key)
    requires key in s.rows
  {
    !Anchored(s, key) && parses(key, s.rows[key])
  }

  /** The genesis events of a scan, in scan order. */
  function Seeds(s: Store, parses: Barrier, kind: Kind, ids: seq<Id>): seq<Event>
    requires AllLive(s, kind, ids)
  {
    if ids == [] then []
    else
      var init, key := ids[..|ids| - 1], Key(kind, ids[|ids| - 1]);
      Seeds(s, parses, kind, init) + (if Seedable(s, parses, key) then [Genesis(key, s.rows[key])] else [])
  }

  lemma NothingFresh(s: Store, parses: Barrier)
    ensures Fresh(s, parses, {}) == {} && SeedEvents(s, {}) == {}
  {
  }

  lemma FreshUnion(s: Store, parses: Barrier, a: set<Key>, b: set<Key>)
    ensures Fresh(s, parses, a + b) == Fresh(s, parses, a) + Fresh(s, parses, b)
  {
  }

  lemma FreshOne(s: Store, parses: Barrier, key: Key)
    requires key in s.rows
    ensures Fresh(s, parses, {key}) == if Seedable(s, parses, key) then {key} else {}
    ensures SeedEvents(s, Fresh(s, parses, {key}))
         == if Seedable(s, parses, key) then {Genesis(key, s.rows[key])} else {}
  {
    hide Anchored;
    assert Fresh(s, parses, {key}) == if Seedable(s, parses, key) then {key} else {};
  }

  lemma ScanExtended(s: Store, kind: Kind, init: seq<Id>, id: Id)
    requires AllLive(s, kind, init) && Distinct(init)
    requires Key(kind, id) in s.rows && Key(kind, id) !in Keys(kind, init)
    ensures AllLive(s, kind, init + [id]) && Distinct(init + [id])
    ensures Keys(kind, init + [id]) == Keys(kind, init) + {Key(kind, id)}
  {
  }

  lemma ScanSplit(s: Store, kind: Kind, init: seq<Id>, id: Id)
    requires AllLive(s, kind, init + [id]) && Distinct(init + [id])
    ensures AllLive(s, kind, init) && Distinct(init)
    ensures Key(kind, id) in s.rows && Key(kind, id) !in Keys(kind, init)
    ensures Keys(kind, init) <= s.rows.Keys
    ensures Keys(kind, init + [id]) == Keys(kind, init) + {Key(kind, id)}
  {
    var ids := init + [id];
    forall k | k in init ensures k != id && k in ids
    {
      var at :| 0 <= at < |init| && init[at] == k;
      assert ids[at] == k && ids[|init|] == id;
    }
    forall i, j | 0 <= i < j < |init| ensures init[i] != init[j]
    {
      assert ids[i] == init[i] && ids[j] == init[j];
    }
  }

  /** A scan of distinct rows appends exactly the genesis events of its fresh rows, one each. */
  lemma {:induction false} SeedsOfScan(s: Store, parses: Barrier, kind: Kind, ids: seq<Id>)
    requires AllLive(s, kind, ids) && Distinct(ids)
    ensures Keys(kind, ids) <= s.rows.Keys
    ensures multiset(Seeds(s, parses, kind, ids))
         == multiset(SeedEvents(s, Fresh(s, parses, Keys(kind, ids))))
  {
    hide Anchored, Seedable, SeedEvents;
    if ids == [] {
      assert Keys(kind, ids) == {};
      assert SeedEvents(s, Fresh(s, parses, {})) == {} by { NothingFresh(s, parses); }
    } else {
      hide Fresh, AllLive, Distinct, Keys;
      var init, id := ids[..|ids| - 1], ids[|ids| - 1];
      assert ids == init + [id];
      ScanSplit(s, kind, init, id);
      SeedsOfScan(s, parses, kind, init);
      SeedsOfStep(s, parses, Keys(kind, init), Key(kind, id));
    }
  }

  lemma SeedsOfStep(s: Store, parses: Barrier, before: set<Key>, key: Key)
    requires before <= s.rows.Keys && key in s.rows && key !in before
    ensures multiset(SeedEvents(s, Fresh(s, parses, before + {key})))
         == multiset(SeedEvents(s, Fresh(s, parses, before)))
            + multiset(if Seedable(s, parses, key) then [Genesis(key, s.rows[key])] else [])
  {
    FreshUnion(s, parses, before, {key});
    FreshOne(s, parses, key);
    hide Anchored, Seedable;
    SeedsOfUnion(s, Fresh(s, parses, before), Fresh(s, parses, {key}));
  }

  predicate HubsFirst(rows: map<Key, Row>, ids: seq<Id>)
    requires forall id :: id in ids ==> Key(LearningItem, id) in rows
  {
    forall i, j :: 0 <= i < j < |ids| && rows[Key(LearningItem, ids[j])].hub ==> rows[Key(LearningItem, ids[i])].hub
  }

  predicate HubEventsFirst(events: seq<Event>) {
    && (forall e :: e in events ==> e.Genesis?)
    && forall i, j :: 0 <= i < j < |events| && events[j].row.hub ==> events[i].row.hub
  }

  lemma {:induction false} HubsAreSeededFirst(s: Store, parses: Barrier, ids: seq<Id>)
    requires AllLive(s, LearningItem, ids) && HubsFirst(s.rows, ids)
    ensures HubEventsFirst(Seeds(s, parses, LearningItem, ids))
    ensures forall e :: e in Seeds(s, parses, LearningItem, ids) ==>
              exists id :: id in ids && e == Genesis(Key(LearningItem, id), s.rows[Key(LearningItem, id)])
  {
    hide Anchored;
    if ids != [] {
      var init, id := ids[..|ids| - 1], ids[|ids| - 1];
      HubsAreSeededFirst(s, parses, init);
      var before, all := Seeds(s, parses, LearningItem, init), Seeds(s, parses, LearningItem, ids);
      forall i, j | 0 <= i < j < |all| && all[j].row.hub ensures all[i].row.hub
      {
        assert before[i] in before;
        if j == |before| {
          var k :| k in init && before[i] == Genesis(Key(LearningItem, k), s.rows[Key(LearningItem, k)]);
          var at :| 0 <= at < |init| && init[at] == k;
          assert ids[at] == k;
        }
      }
    }
  }

  /** The ids of the hubs, or of the other rows, in scan order. */
  function Part(rows: map<Key, Row>, ids: seq<Id>, hub: bool): (part: seq<Id>)
    requires forall id :: id in ids ==> Key(LearningItem, id) in rows
    ensures forall id :: id in part <==> id in ids && rows[Key(LearningItem, id)].hub == hub
    ensures Distinct(ids) ==> Distinct(part)
  {
    if ids == [] then []
    else (if rows[Key(LearningItem, ids[0])].hub == hub then [ids[0]] else []) + Part(rows, ids[1..], hub)
  }

  /** The order in which a lane handles the rows it read: hubs before their children for learning items. */
  function Ordered(s: Store, kind: Kind, ids: seq<Id>): (ordered: seq<Id>)
    requires AllLive(s, kind, ids) && Distinct(ids)
    ensures forall id :: id in ordered <==> id in ids
    ensures Distinct(ordered)
    ensures kind == LearningItem ==> HubsFirst(s.rows, ordered)
  {
    if kind == LearningItem then
      var hubs, others := Part(s.rows, ids, true), Part(s.rows, ids, false);
      assert forall i :: 0 <= i < |hubs| ==> hubs[i] !in others;
      hubs + others
    else ids
  }

  // ---- One lane, and all of them --------------------------------------------------------------

  /** How a lane ends: two counts, one throw listing every bad row, or a throw at the first bad row or fault. */
  datatype Outcome =
    | Done(seeded: nat, skipped: nat)
    | BadRows(failed: seq<Id>, seeded: nat, skipped: nat)
    | BadRow(id: Id)
    | Faulted(id: Id)

  predicate Fails(s: Store, parses: Barrier, key: Key) {
    key in s.rows && !Anchored(s, key) && !parses(key, s.rows[key])
  }

  predicate Hit(s: Store, faults: set<Key>, key: Key) {
    key in s.rows && !Anchored(s, key) && key in faults
  }

  /** The lane reached the end of its scan: each row was seeded, skipped, or failed, and is counted once. */
  ghost predicate Counted(
      s: Store, parses: Barrier, kind: Kind, handled: seq<Id>, seeded: nat, skipped: nat, failed: seq<Id>)
  {
    && AllLive(s, kind, handled)
    && seeded == |Seeds(s, parses, kind, handled)|
    && seeded + skipped + |failed| == |handled|
    && Distinct(failed)
    && (forall id :: id in failed <==> id in handled && Fails(s, parses, Key(kind, id)))
  }

  lemma CountedStep(
      s: Store, parses: Barrier, kind: Kind, handled: seq<Id>, seeded: nat, skipped: nat, failed: seq<Id>, id: Id)
    requires Counted(s, parses, kind, handled, seeded, skipped, failed)
    requires id !in handled && Key(kind, id) in s.rows
    ensures Anchored(s, Key(kind, id)) ==>
              Counted(s, parses, kind, handled + [id], seeded, skipped + 1, failed)
    ensures Seedable(s, parses, Key(kind, id)) ==>
              Counted(s, parses, kind, handled + [id], seeded + 1, skipped, failed)
    ensures Fails(s, parses, Key(kind, id)) ==>
              Counted(s, parses, kind, handled + [id], seeded, skipped, failed + [id])
  {
    hide Anchored;
    var all := handled + [id];
    assert all[..|all| - 1] == handled;
  }

  lemma SeedsStep(s: Store, parses: Barrier, kind: Kind, handled: seq<Id>, id: Id)
    requires AllLive(s, kind, handled) && Key(kind, id) in s.rows
    ensures AllLive(s, kind, handled + [id])
    ensures Seeds(s, parses, kind, handled + [id]) == Seeds(s, parses, kind, handled)
              + (if Seedable(s, parses, Key(kind, id)) then [Genesis(Key(kind, id), s.rows[Key(kind, id)])] else [])
    ensures SeedAnchors(Fresh(s, parses, Keys(kind, handled + [id])))
         == SeedAnchors(Fresh(s, parses, Keys(kind, handled)))
              + (if Seedable(s, parses, Key(kind, id)) && WritesIndex(kind) then {Key(kind, id)} else {})
  {
    var all, key := handled + [id], Key(kind, id);
    assert all[..|all| - 1] == handled;
    assert Keys(kind, all) == Keys(kind, handled) + {key};
    FreshUnion(s, parses, Keys(kind, handled), {key});
    FreshOne(s, parses, key);
    hide Anchored, Seedable, Fresh;
  }

  /** What is true of a lane between two rows. */
  ghost predicate LaneAt(
      s: Store, t: Store, parses: Barrier, kind: Kind, faults: set<Key>,
      handled: seq<Id>, seeded: nat, skipped: nat, failed: seq<Id>)
  {
    && AllLive(s, kind, handled)
    && t.rows == s.rows
    && t.log == s.log + Seeds(s, parses, kind, handled)
    && t.index == s.index + SeedAnchors(Fresh(s, parses, Keys(kind, handled)))
    && Counted(s, parses, kind, handled, seeded, skipped, failed)
    && (failed == [] || Accumulates(kind))
    && (forall id :: id in handled ==> !Hit(s, faults, Key(kind, id)))
  }

  lemma LaneStart(s: Store, parses: Barrier, kind: Kind, faults: set<Key>)
    ensures LaneAt(s, s, parses, kind, faults, [], 0, 0, [])
  {
    assert Fresh(s, parses, Keys(kind, [])) == {};
  }

  lemma LaneStep(
      s: Store, t: Store, parses: Barrier, kind: Kind, faults: set<Key>,
      handled: seq<Id>, seeded: nat, skipped: nat, failed: seq<Id>, id: Id)
    requires LaneAt(s, t, parses, kind, faults, handled, seeded, skipped, failed)
    requires id !in handled && Key(kind, id) in s.rows && !Hit(s, faults, Key(kind, id))
    ensures Anchored(s, Key(kind, id)) ==>
              LaneAt(s, t, parses, kind, faults, handled + [id], seeded, skipped + 1, failed)
    ensures Fails(s, parses, Key(kind, id)) && Accumulates(kind) ==>
              LaneAt(s, t, parses, kind, faults, handled + [id], seeded, skipped, failed + [id])
    ensures Seedable(s, parses, Key(kind, id)) ==>
              LaneAt(s, WithGenesis(t, Key(kind, id), s.rows[Key(kind, id)]), parses, kind, faults,
                     handled + [id], seeded + 1, skipped, failed)
  {
    hide Anchored, Fresh, Seeds, SeedAnchors, Keys, Counted, Hit;
    SeedsStep(s, parses, kind, handled, id);
    CountedStep(s, parses, kind, handled, seeded, skipped, failed, id);
  }

  /** The two writes of one row's transaction. */
  function WithGenesis(t: Store, key: Key, row: Row): Store {
    Store(t.rows, t.log + [Genesis(key, row)], if WritesIndex(key.kind) then t.index + {key} else t.index)
  }

  /** At the end of a scan the lane is done exactly when no row failed. */
  lemma LaneEnd(
      s: Store, t: Store, parses: Barrier, kind: Kind, faults: set<Key>,
      handled: seq<Id>, seeded: nat, skipped: nat, failed: seq<Id>)
    requires LaneAt(s, t, parses, kind, faults, handled, seeded, skipped, failed)
    requires Keys(kind, handled) == LiveKeys(s, kind)
    ensures failed == [] <==> forall key :: key in LiveKeys(s, kind) ==>
              !Fails(s, parses, key) && !Hit(s, faults, key)
  {
    hide Anchored, Fails, Hit, Seeds, Fresh;
    forall key | key in LiveKeys(s, kind) ensures !Hit(s, faults, key)
    {
      assert key == Key(kind, key.id) && key in Keys(kind, handled);
    }
    if key :| key in LiveKeys(s, kind) && Fails(s, parses, key) {
      assert key == Key(kind, key.id);
      assert key in Keys(kind, handled);
      assert key.id in failed;
    }
    if failed != [] {
      assert failed[0] in failed;
      assert Key(kind, failed[0]) in Keys(kind, handled);
    }
  }

  /** Wherever a lane stops, what it has committed is what handling those rows means. */
  lemma LaneStopped(
      s: Store, t: Store, parses: Barrier, kind: Kind, faults: set<Key>,
      handled: seq<Id>, seeded: nat, skipped: nat, failed: seq<Id>)
    requires LaneAt(s, t, parses, kind, faults, handled, seeded, skipped, failed)
    requires Distinct(handled)
    ensures AllLive(s, kind, handled)
    ensures t.log == s.log + Seeds(s, parses, kind, handled)
    ensures Handles(s, t, parses, Keys(kind, handled))
    ensures kind == LearningItem && HubsFirst(s.rows, handled) ==> HubEventsFirst(t.log[|s.log|..])
    ensures Counted(s, parses, kind, handled, seeded, skipped, failed)
    ensures failed == [] || Accumulates(kind)
  {
    SeedsOfScan(s, parses, kind, handled);
    hide Fresh, Counted, Anchored, Hit;
    if kind == LearningItem && HubsFirst(s.rows, handled) {
      HubsAreSeededFirst(s, parses, handled);
      assert t.log[|s.log|..] == Seeds(s, parses, kind, handled);
    }
  }

  class Database {
    var rows: map<Key, Row>
    var log: seq<Event>
    var index: set<Key>

    function Now(): Store
      reads this
    {
      Store(rows, log, index)
    }

    /** The ids of one table, in an order of the database's choosing. */
    method Select(kind: Kind) returns (ids: seq<Id>)
      ensures Distinct(ids) && AllLive(Now(), kind, ids)
      ensures Keys(kind, ids) == LiveKeys(Now(), kind)
    {
      ghost var s := Now();
      var all := LiveKeys(Now(), kind);
      assert forall key :: key in all ==> key in s.rows && key == Key(kind, key.id);
      assert Distinct([]) && AllLive(s, kind, []) && Keys(kind, []) == {};
      hide Distinct, AllLive, Keys, LiveKeys;
      var rest := all;
      ids := [];
      while rest != {}
        invariant rest <= all && Keys(kind, ids) == all - rest
        invariant Distinct(ids) && AllLive(s, kind, ids)
        decreases |rest|
      {
        var key :| key in rest;
        ScanExtended(s, kind, ids, key.id);
        ids := ids + [key.id];
        rest := rest - {key};
      }
    }

    /**
     * One lane. `parses` is the parse barrier of the event writer, `faults` the rows at whose
     * transaction the infrastructure fails or the process dies. The anchor scan happens once, before
     * the first row. Whatever the outcome, the rows handled so far are committed and nothing else is.
     */
    method BackfillKind(kind: Kind, parses: Barrier, faults: set<Key>)
        returns (outcome: Outcome, ghost handled: seq<Id>)
      modifies this`log, this`index
      ensures AllLive(old(Now()), kind, handled) && Distinct(handled)
      ensures log == old(log) + Seeds(old(Now()), parses, kind, handled)
      ensures Handles(old(Now()), Now(), parses, Keys(kind, handled))
      ensures kind == LearningItem ==> HubEventsFirst(log[|old(log)|..])
      ensures outcome.Done? || outcome.BadRows? ==> Keys(kind, handled) == LiveKeys(old(Now()), kind)
      ensures outcome.Done? <==> forall key :: key in LiveKeys(old(Now()), kind) ==>
                !Fails(old(Now()), parses, key) && !Hit(old(Now()), faults, key)
      ensures match outcome
              case Done(seeded, skipped) => Counted(old(Now()), parses, kind, handled, seeded, skipped, [])
              case BadRows(failed, seeded, skipped) =>
                && kind in {Artifact, QuestionBlock, ItemCalibration} && failed != []
                && Counted(old(Now()), parses, kind, handled, seeded, skipped, failed)
              case BadRow(id) =>
                kind !in {Artifact, QuestionBlock, ItemCalibration} && id !in handled && Fails(old(Now()), parses, Key(kind, id))
              case Faulted(id) => id !in handled && Hit(old(Now()), faults, Key(kind, id))
    {
      hide Anchored, Fresh, Seeds, Counted, Handles, HubEventsFirst, LaneAt;
      ghost var s := Now();
      LaneStart(s, parses, kind, faults);
      var scan := Select(kind);
      var sourced := set id | id in scan && Anchored(Now(), Key(kind, id));
      var order := Ordered(Now(), kind, scan);
      var seeded, skipped, failed, i := 0, 0, [], 0;
      handled := [];
      while i < |order|
        invariant 0 <= i <= |order| && handled == order[..i]
        invariant LaneAt(s, Now(), parses, kind, faults, handled, seeded, skipped, failed)
        invariant rows == s.rows
      {
        var id := order[i];
        var key := Key(kind, id);
        assert id in scan && id !in handled && key in LiveKeys(s, kind);
        LaneStopped(s, Now(), parses, kind, faults, handled, seeded, skipped, failed);
        if id in sourced {
          LaneStep(s, Now(), parses, kind, faults, handled, seeded, skipped, failed, id);
          skipped := skipped + 1;
        } else if key in faults {
          assert Hit(s, faults, key);
          return Faulted(id), handled;
        } else if parses(key, rows[key]) {
          LaneStep(s, Now(), parses, kind, faults, handled, seeded, skipped, failed, id);
          log := log + [Genesis(key, rows[key])];
          if WritesIndex(kind) {
            index := index + {key};
          }
          seeded := seeded + 1;
        } else if Accumulates(kind) {
          LaneStep(s, Now(), parses, kind, faults, handled, seeded, skipped, failed, id);
          failed := failed + [id];
        } else {
          assert Fails(s, parses, key);
          return BadRow(id), handled;
        }
        i := i + 1;
        handled := handled + [id];
      }
      LaneStopped(s, Now(), parses, kind, faults, handled, seeded, skipped, failed);
      assert Keys(kind, handled) == Keys(kind, scan);
      LaneEnd(s, Now(), parses, kind, faults, handled, seeded, skipped, failed);
      outcome := if failed == [] then Done(seeded, skipped) else BadRows(failed, seeded, skipped);
    }

    /**
     * The lanes of the given kinds, one after the other. The first lane that throws ends the run, with
     * everything before the throw committed; the run completes exactly when no event-less row of these
     * kinds fails to parse or is hit by a fault.
     */
    method BackfillLanes(kinds: seq<Kind>, parses: Barrier, faults: set<Key>)
        returns (complete: bool, ghost handled: set<Key>)
      requires Once(kinds)
      modifies this`log, this`index
      ensures handled <= LiveOf(old(Now()), kinds)
      ensures Handles(old(Now()), Now(), parses, handled)
      ensures complete ==> handled == LiveOf(old(Now()), kinds)
      ensures complete <==> forall key :: key in LiveOf(old(Now()), kinds) ==>
                !Fails(old(Now()), parses, key) && !Hit(old(Now()), faults, key)
      ensures old(log) <= log && InLaneOrder(kinds, log[|old(log)|..])
    {
      hide Anchored, Fresh, Handles, Fails, Hit, Distinct, AllLive, InLaneOrder, OfKinds, Seeds;
      ghost var s := Now();
      handled := {};
      HandlesNothing(s, parses);
      NoEvents(kinds, s.log);
      var i := 0;
      while i < |kinds|
        invariant 0 <= i <= |kinds|
        invariant Handles(s, Now(), parses, handled)
        invariant rows == s.rows
        invariant handled == LiveOf(s, kinds[..i])
        invariant s.log <= log && OfKinds(kinds[..i], log[|s.log|..]) && InLaneOrder(kinds, log[|s.log|..])
        invariant forall key :: key in handled ==> !Fails(s, parses, key) && !Hit(s, faults, key)
      {
        ghost var t := Now();
        var kind := kinds[i];
        assert kinds[..i + 1] == kinds[..i] + [kind];
        var outcome, ids := BackfillKind(kind, parses, faults);
        HandlesCompose(s, t, Now(), parses, handled, Keys(kind, ids));
        OtherKindsUntouched(s, t, parses, handled, kind, faults);
        RowsOfScan(t, kind, ids);
        LaneAppended(kinds, i, s.log, t, parses, ids);
        handled := handled + Keys(kind, ids);
        if !outcome.Done? {
          return false, handled;
        }
        i := i + 1;
      }
      assert kinds[..i] == kinds;
      complete := true;
    }

    /** A full run: every lane, in order. */
    method BackfillGenesisEvents(parses: Barrier, faults: set<Key>)
        returns (complete: bool, ghost handled: set<Key>)
      modifies this`log, this`index
      ensures handled <= old(Now()).rows.Keys
      ensures Handles(old(Now()), Now(), parses, handled)
      ensures complete ==> handled == old(Now()).rows.Keys
      ensures complete <==> forall key :: key in old(Now()).rows ==>
                !Fails(old(Now()), parses, key) && !Hit(old(Now()), faults, key)
      ensures old(log) <= log && InLaneOrder(
                [Knowledge, KnowledgeEdge, Goal, MistakeVariant, Artifact, LearningItem, QuestionBlock, ItemCalibration],
                log[|old(log)|..])
    {
      hide Anchored, Fresh, Handles, Fails, Hit, InLaneOrder;
      EveryKindHasALane();
      assert LiveOf(Now(), BACKFILL_ORDER) == rows.Keys;
      complete, handled := BackfillLanes(BACKFILL_ORDER, parses, faults);
    }
  }

  /** All events are genesis events of these kinds. */
  ghost predicate OfKinds(kinds: seq<Kind>, events: seq<Event>) {
    forall e :: e in events ==> e.Genesis? && e.of.kind in kinds
  }

  /** All events are genesis events, and no event of an earlier kind comes behind one of a later kind. */
  ghost predicate InLaneOrder(kinds: seq<Kind>, events: seq<Event>) {
    && OfKinds(kinds, events)
    && forall i, j, a, b :: 0 <= i < j < |events| && 0 <= a < b < |kinds| ==>
         !(events[j].of.kind == kinds[a] && events[i].of.kind == kinds[b])
  }

  lemma NoEvents(kinds: seq<Kind>, log: seq<Event>)
    ensures OfKinds([], log[|log|..]) && InLaneOrder(kinds, log[|log|..])
  {
  }

  lemma {:induction false} SeedsOfOneKind(s: Store, parses: Barrier, kind: Kind, ids: seq<Id>)
    requires AllLive(s, kind, ids)
    ensures OfKinds([kind], Seeds(s, parses, kind, ids))
    decreases |ids|
  {
    if ids != [] { SeedsOfOneKind(s, parses, kind, ids[..|ids| - 1]); }
  }

  /** One lane more: its events go behind those of the lanes before. */
  lemma LaneAppended(kinds: seq<Kind>, i: nat, start: seq<Event>, t: Store, parses: Barrier, ids: seq<Id>)
    requires Once(kinds) && i < |kinds| && AllLive(t, kinds[i], ids) && start <= t.log
    requires OfKinds(kinds[..i], t.log[|start|..]) && InLaneOrder(kinds, t.log[|start|..])
    ensures
      var log := t.log + Seeds(t, parses, kinds[i], ids);
      start <= log && OfKinds(kinds[..i + 1], log[|start|..]) && InLaneOrder(kinds, log[|start|..])
  {
    SeedsOfOneKind(t, parses, kinds[i], ids);
    var earlier, later := t.log[|start|..], Seeds(t, parses, kinds[i], ids);
    hide Seeds;
    assert (t.log + later)[|start|..] == earlier + later;
    LanesJoin(kinds, i, earlier, later);
  }

  lemma LanesJoin(kinds: seq<Kind>, i: nat, earlier: seq<Event>, later: seq<Event>)
    requires Once(kinds) && i < |kinds| && OfKinds(kinds[..i], earlier) && InLaneOrder(kinds, earlier)
    requires OfKinds([kinds[i]], later)
    ensures OfKinds(kinds[..i + 1], earlier + later) && InLaneOrder(kinds, earlier + later)
  {
    var all := earlier + later;
    forall j | 0 <= j < |all|
      ensures all[j].Genesis? && all[j].of.kind in kinds[..i + 1]
      ensures if j < |earlier| then all[j] == earlier[j] && all[j].of.kind in kinds[..i] else all[j].of.kind == kinds[i]
    {
      assert j < |earlier| ==> earlier[j] in earlier;
      assert j >= |earlier| ==> later[j - |earlier|] in later;
    }
    hide OfKinds;
    forall j, k, a, b | 0 <= j < k < |all| && 0 <= a < b < |kinds|
      ensures !(all[k].of.kind == kinds[a] && all[j].of.kind == kinds[b])
    {
    }
  }

  predicate Once(kinds: seq<Kind>) { forall i, j :: 0 <= i < j < |kinds| ==> kinds[i] != kinds[j] }

  function LiveOf(s: Store, kinds: seq<Kind>): set<Key> { set key | key in s.rows && key.kind in kinds }

  lemma HandlesNothing(s: Store, parses: Barrier)
    ensures Handles(s, s, parses, {})
  {
    NothingFresh(s, parses);
  }

  lemma RowsOfScan(s: Store, kind: Kind, ids: seq<Id>)
    requires AllLive(s, kind, ids)
    ensures Keys(kind, ids) <= LiveKeys(s, kind)
  {
  }

  lemma EveryKindHasALane()
    ensures forall kind: Kind :: kind in BACKFILL_ORDER
  {
    forall kind: Kind ensures kind in BACKFILL_ORDER
    {
      assert |BACKFILL_ORDER| == 8;
      match kind
      case Knowledge => assert BACKFILL_ORDER[0] == kind;
      case KnowledgeEdge => assert BACKFILL_ORDER[1] == kind;
      case Goal => assert BACKFILL_ORDER[2] == kind;
      case MistakeVariant => assert BACKFILL_ORDER[3] == kind;
      case Artifact => assert BACKFILL_ORDER[4] == kind;
      case LearningItem => assert BACKFILL_ORDER[5] == kind;
      case QuestionBlock => assert BACKFILL_ORDER[6] == kind;
      case ItemCalibration => assert BACKFILL_ORDER[7] == kind;
    }
  }

  /** A lane is not affected by what the lanes of other kinds seeded. */
  lemma OtherKindsUntouched(s: Store, t: Store, parses: Barrier, handled: set<Key>, kind: Kind, faults: set<Key>)
    requires Handles(s, t, parses, handled)
    requires forall key :: key in handled ==> key.kind != kind
    ensures forall id :: Fails(t, parses, Key(kind, id)) == Fails(s, parses, Key(kind, id))
    ensures forall id :: Hit(t, faults, Key(kind, id)) == Hit(s, faults, Key(kind, id))
    ensures LiveKeys(t, kind) == LiveKeys(s, kind)
  {
    forall id ensures Anchored(t, Key(kind, id)) == Anchored(s, Key(kind, id))
    {
      AnchoredAfter(s, t, parses, handled, Key(kind, id));
    }
    hide Anchored;
  }
}
