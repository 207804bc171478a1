/**
 * Budgets on counted findings: what a comparison base had is tolerated at the head, per key and
 * across renames, and everything beyond it is flagged.
 */
module CountBudgets {

  function Get<K>(m: map<K, nat>, k: K): nat { if k in m then m[k] else 0 }

  function Max(a: int, b: int): int { if a < b then b else a }

  /** How many items have the key. */
  function Count<T, K(==)>(items: seq<T>, key: T -> K, k: K): nat {
    if items == [] then 0
    else Count(items[..|items| - 1], key, k) + (if key(items[|items| - 1]) == k then 1 else 0)
  }

  /** The items that find their key's budget used up by the items before them, in order. */
  function Flagged<T, K(==)>(items: seq<T>, key: T -> K, budget: map<K, nat>): seq<T> {
    if items == [] then []
    else
      var before, item := items[..|items| - 1], items[|items| - 1];
      Flagged(before, key, budget)
      + (if Count(before, key, key(item)) >= Get(budget, key(item)) then [item] else [])
  }

  /** The other items, in order. */
  function Tolerated<T, K(==)>(items: seq<T>, key: T -> K, budget: map<K, nat>): seq<T> {
    if items == [] then []
    else
      var before, item := items[..|items| - 1], items[|items| - 1];
      Tolerated(before, key, budget)
      + (if Count(before, key, key(item)) >= Get(budget, key(item)) then [] else [item])
  }

  /** The loop of all gates: count each key as it comes and compare with its budget. */
  method Partition<T, K(==)>(items: seq<T>, key: T -> K, budget: map<K, nat>)
      returns (flagged: seq<T>, tolerated: seq<T>)
    ensures flagged == Flagged(items, key, budget)
    ensures tolerated == Tolerated(items, key, budget)
  {
    var used: map<K, nat> := map[];
    flagged, tolerated := [], [];
    for i := 0 to |items|
      invariant forall k :: Get(used, k) == Count(items[..i], key, k)
      invariant flagged == Flagged(items[..i], key, budget)
      invariant tolerated == Tolerated(items[..i], key, budget)
    {
      var item := items[i];
      assert items[..i + 1][..i] == items[..i];
      var count := Get(used, key(item)) + 1;
      used := used[key(item) := count];
      if count <= Get(budget, key(item)) {
        tolerated := tolerated + [item];
      } else {
        flagged := flagged + [item];
      }
    }
    assert items[..|items|] == items;
  }

  lemma CountSnoc<T, K>(items: seq<T>, item: T, key: T -> K, k: K)
    ensures Count(items + [item], key, k) == Count(items, key, k) + (if key(item) == k then 1 else 0)
  {
    assert (items + [item])[..|items|] == items;
  }

  /** Per key exactly the excess over the budget is flagged, and the rest is tolerated. */
  lemma {:induction false} ExcessIsFlagged<T, K>(items: seq<T>, key: T -> K, budget: map<K, nat>, k: K)
    ensures Count(Flagged(items, key, budget), key, k) == Max(0, Count(items, key, k) - Get(budget, k))
    ensures Count(Tolerated(items, key, budget), key, k) + Count(Flagged(items, key, budget), key, k)
         == Count(items, key, k)
  {
    if items != [] {
      var before, item := items[..|items| - 1], items[|items| - 1];
      ExcessIsFlagged(before, key, budget, k);
      CountSnoc(Flagged(before, key, budget), item, key, k);
      CountSnoc(Tolerated(before, key, budget), item, key, k);
      assert Flagged(before, key, budget) + [] == Flagged(before, key, budget);
      assert Tolerated(before, key, budget) + [] == Tolerated(before, key, budget);
    }
  }

  lemma OneMore<T, K>(before: seq<T>, item: T, key: T -> K, budget: map<K, nat>)
    ensures var flagged, tolerated := Flagged(before, key, budget), Tolerated(before, key, budget);
      var over := Count(before, key, key(item)) >= Get(budget, key(item));
      && Flagged(before + [item], key, budget) == (if over then flagged + [item] else flagged)
      && Tolerated(before + [item], key, budget) == (if over then tolerated else tolerated + [item])
  {
    assert (before + [item])[..|before|] == before;
  }

  /** `a` and `b` together hold exactly what `whole` holds. */
  ghost predicate Shares<T>(a: seq<T>, b: seq<T>, whole: seq<T>) { multiset(a) + multiset(b) == multiset(whole) }

  lemma SharesStep<T>(a: seq<T>, b: seq<T>, whole: seq<T>, item: T)
    requires Shares(a, b, whole)
    ensures Shares(a + [item], b, whole + [item]) && Shares(a, b + [item], whole + [item])
  {
  }

  lemma SharedStep<T, K>(before: seq<T>, item: T, key: T -> K, budget: map<K, nat>)
    requires Shares(Flagged(before, key, budget), Tolerated(before, key, budget), before)
    ensures Shares(Flagged(before + [item], key, budget), Tolerated(before + [item], key, budget), before + [item])
  {
    hide Flagged, Tolerated, Count, Get, Shares;
    OneMore(before, item, key, budget);
    SharesStep(Flagged(before, key, budget), Tolerated(before, key, budget), before, item);
  }

  /** Nothing is lost and nothing is doubled: flagged and tolerated items together are the items. */
  lemma {:induction false} NothingIsLost<T, K>(items: seq<T>, key: T -> K, budget: map<K, nat>)
    ensures Shares(Flagged(items, key, budget), Tolerated(items, key, budget), items)
  {
    if items != [] {
      hide Flagged, Tolerated, Shares;
      var before, item := items[..|items| - 1], items[|items| - 1];
      assert items == before + [item];
      NothingIsLost(before, key, budget);
      SharedStep(before, item, key, budget);
    }
  }

  lemma {:induction false} CountMember<T, K>(items: seq<T>, key: T -> K, k: K)
    ensures Count(items, key, k) > 0 <==> exists item :: item in items && key(item) == k
  {
    if items != [] {
      var before, last := items[..|items| - 1], items[|items| - 1];
      CountMember(before, key, k);
      assert items == before + [last];
      assert forall item :: item in items <==> item in before || item == last;
    }
  }

  /** A gate passes exactly when every key stays within its budget. */
  lemma {:induction false} PassesIffWithinBudget<T, K(!new)>(items: seq<T>, key: T -> K, budget: map<K, nat>)
    ensures Flagged(items, key, budget) == [] <==> forall k :: Count(items, key, k) <= Get(budget, k)
  {
    var flagged := Flagged(items, key, budget);
    forall k ensures flagged == [] ==> Count(items, key, k) <= Get(budget, k)
    {
      ExcessIsFlagged(items, key, budget, k);
    }
    if flagged != [] {
      var k := key(flagged[0]);
      ExcessIsFlagged(items, key, budget, k);
      CountMember(flagged, key, k);
      assert flagged[0] in flagged;
    }
  }

  // ---- File by file ---------------------------------------------------------------------------

  ghost predicate KeysApart<T, K>(a: seq<T>, b: seq<T>, key: T -> K) {
    forall x, y :: x in a && y in b ==> key(x) != key(y)
  }

  lemma {:induction false} CountConcat<T, K>(a: seq<T>, b: seq<T>, key: T -> K, k: K)
    ensures Count(a + b, key, k) == Count(a, key, k) + Count(b, key, k)
    decreases |b|
  {
    if b == [] {
      assert a + b == a;
    } else {
      CountConcat(a, b[..|b| - 1], key, k);
      assert (a + b)[..|a + b| - 1] == a + b[..|b| - 1];
    }
  }

  /** Lists that share no key are judged independently. */
  lemma {:induction false} JudgedApart<T, K>(a: seq<T>, b: seq<T>, key: T -> K, budget: map<K, nat>)
    requires KeysApart(a, b, key)
    ensures Flagged(a + b, key, budget) == Flagged(a, key, budget) + Flagged(b, key, budget)
    decreases |b|
  {
    if b == [] {
      assert a + b == a;
    } else {
      var init, last := b[..|b| - 1], b[|b| - 1];
      assert b == init + [last] && last in b;
      JudgedApart(a, init, key, budget);
      JudgedStep(a, init, last, key, budget);
      assert a + b == a + init + [last];
      hide Flagged;
    }
  }

  lemma JudgedStep<T, K>(a: seq<T>, init: seq<T>, last: T, key: T -> K, budget: map<K, nat>)
    requires forall x :: x in a ==> key(x) != key(last)
    requires Flagged(a + init, key, budget) == Flagged(a, key, budget) + Flagged(init, key, budget)
    ensures Flagged(a + init + [last], key, budget) == Flagged(a, key, budget) + Flagged(init + [last], key, budget)
  {
    hide Flagged, Tolerated, Count;
    CountConcat(a, init, key, key(last));
    CountMember(a, key, key(last));
    OneMore(a + init, last, key, budget);
    OneMore(init, last, key, budget);
  }

  function Concat<X>(parts: seq<seq<X>>): seq<X> {
    if parts == [] then [] else Concat(parts[..|parts| - 1]) + parts[|parts| - 1]
  }

  lemma {:induction false} ConcatMember<X>(parts: seq<seq<X>>, x: X)
    requires x in Concat(parts)
    ensures exists i :: 0 <= i < |parts| && x in parts[i]
  {
    if x !in parts[|parts| - 1] {
      ConcatMember(parts[..|parts| - 1], x);
      var i :| 0 <= i < |parts| - 1 && x in parts[..|parts| - 1][i];
      assert x in parts[i];
    }
  }

  ghost predicate FilesApart<T, K>(files: seq<seq<T>>, key: T -> K) {
    forall i, j :: 0 <= i < j < |files| ==> KeysApart(files[i], files[j], key)
  }

  lemma LastApart<T, K>(files: seq<seq<T>>, key: T -> K)
    requires files != [] && FilesApart(files, key)
    ensures FilesApart(files[..|files| - 1], key)
    ensures KeysApart(Concat(files[..|files| - 1]), files[|files| - 1], key)
  {
    var n := |files| - 1;
    var init := files[..n];
    forall x, y | x in Concat(init) && y in files[n] ensures key(x) != key(y)
    {
      ConcatMember(init, x);
      var i :| 0 <= i < n && x in init[i];
      assert KeysApart(files[i], files[n], key);
    }
  }

  /**
   * Judging the findings file by file, as one gate does, flags what judging the whole list would:
   * the file is part of the key.
   */
  method JudgeFiles<T, K(==)>(files: seq<seq<T>>, key: T -> K, budget: map<K, nat>)
      returns (flagged: seq<T>, toleratedCount: int)
    requires FilesApart(files, key)
    ensures flagged == Flagged(Concat(files), key, budget)
    ensures toleratedCount == |Concat(files)| - |flagged|
  {
    flagged, toleratedCount := [], 0;
    hide FilesApart, KeysApart, Flagged;
    FlaggedNothing(key, budget);
    for i := 0 to |files|
      invariant flagged == Flagged(Concat(files[..i]), key, budget)
      invariant toleratedCount == |Concat(files[..i])| - |flagged|
    {
      PrefixApart(files, i + 1, key);
      LastApart(files[..i + 1], key);
      assert files[..i + 1][..i] == files[..i] && files[..i + 1][i] == files[i];
      JudgedApart(Concat(files[..i]), files[i], key, budget);
      var beyond, _ := Partition(files[i], key, budget);
      flagged := flagged + beyond;
      toleratedCount := toleratedCount + |files[i]| - |beyond|;
    }
    assert files[..|files|] == files;
  }

  lemma FlaggedNothing<T, K>(key: T -> K, budget: map<K, nat>)
    ensures Flagged([], key, budget) == []
  {
  }

  lemma PrefixApart<T, K>(files: seq<seq<T>>, i: nat, key: T -> K)
    requires FilesApart(files, key) && i <= |files|
    ensures FilesApart(files[..i], key)
  {
    hide KeysApart;
  }

  // ---- Budgets from the base ------------------------------------------------------------------

  datatype Finding = Finding(file: string, line: nat, literal: string, modelId: string)

  type FindingKey = (string, string, string)

  function KeyOf(f: Finding): FindingKey { (f.file, f.literal, f.modelId) }

  function Renamed(file: string, renames: map<string, string>): string {
    if file in renames then renames[file] else file
  }

  function RenamedKey(renames: map<string, string>): Finding -> FindingKey {
    (f: Finding) => KeyOf(f.(file := Renamed(f.file, renames)))
  }

  /** The base's findings counted under the names their files have at the head. */
  method BudgetFrom(findings: seq<Finding>, renames: map<string, string>) returns (budget: map<FindingKey, nat>)
    ensures forall k :: Get(budget, k) == Count(findings, RenamedKey(renames), k)
  {
    budget := map[];
    for i := 0 to |findings|
      invariant forall k :: Get(budget, k) == Count(findings[..i], RenamedKey(renames), k)
    {
      assert findings[..i + 1][..i] == findings[..i];
      var key := RenamedKey(renames)(findings[i]);
      budget := budget[key := Get(budget, key) + 1];
    }
    assert findings[..|findings|] == findings;
  }

  /** The places of the items that have the key. */
  ghost function Places<T, K>(items: seq<T>, key: T -> K, k: K): set<int> {
    set i | 0 <= i < |items| && key(items[i]) == k
  }

  lemma {:induction false} CountIsPlaces<T, K>(items: seq<T>, key: T -> K, k: K)
    ensures Count(items, key, k) == |Places(items, key, k)|
    decreases |items|
  {
    if items == [] {
      assert Places(items, key, k) == {};
    } else {
      var n := |items| - 1;
      var before := Places(items[..n], key, k);
      CountIsPlaces(items[..n], key, k);
      if key(items[n]) == k {
        forall i ensures i in Places(items, key, k) <==> i in before || i == n { }
        assert Places(items, key, k) == before + {n};
      } else {
        forall i ensures i in Places(items, key, k) <==> i in before { }
        assert Places(items, key, k) == before;
      }
    }
  }

  /** The places at which the head has the finding. */
  ghost function HeadPlaces(head: seq<Finding>, file: string, literal: string, modelId: string): set<int> {
    set i | 0 <= i < |head| && head[i].file == file && head[i].literal == literal && head[i].modelId == modelId
  }

  /** The places at which the base has it in a file that has this name at the head. */
  ghost function BasePlaces(
      base: seq<Finding>, renames: map<string, string>, file: string, literal: string, modelId: string): set<int> {
    set i | 0 <= i < |base| && base[i].literal == literal && base[i].modelId == modelId &&
      file == if base[i].file in renames then renames[base[i].file] else base[i].file
  }

  /**
   * The model gate passes exactly when no literal of a model occurs more often in a file than it did at
   * the base, in the files that now have that name.
   */
  lemma ModelGatePassesIff(
      head: seq<Finding>, base: seq<Finding>, renames: map<string, string>, budget: map<FindingKey, nat>)
    requires forall k :: Get(budget, k) == Count(base, RenamedKey(renames), k)
    ensures Flagged(head, KeyOf, budget) == [] <==> forall file, literal, modelId ::
      |HeadPlaces(head, file, literal, modelId)| <= |BasePlaces(base, renames, file, literal, modelId)|
  {
    PassesIffWithinBudget(head, KeyOf, budget);
    forall file, literal, modelId
      ensures Count(head, KeyOf, (file, literal, modelId)) == |HeadPlaces(head, file, literal, modelId)|
      ensures Get(budget, (file, literal, modelId)) == |BasePlaces(base, renames, file, literal, modelId)|
    {
      CountIsPlaces(head, KeyOf, (file, literal, modelId));
      CountIsPlaces(base, RenamedKey(renames), (file, literal, modelId));
      assert Places(head, KeyOf, (file, literal, modelId)) == HeadPlaces(head, file, literal, modelId);
      assert Places(base, RenamedKey(renames), (file, literal, modelId)) == BasePlaces(base, renames, file, literal, modelId);
    }
    hide HeadPlaces, BasePlaces, Count, Flagged;
    if forall file, literal, modelId ::
         |HeadPlaces(head, file, literal, modelId)| <= |BasePlaces(base, renames, file, literal, modelId)| {
      forall k: FindingKey ensures Count(head, KeyOf, k) <= Get(budget, k) {
        assert k == (k.0, k.1, k.2);
        assert |HeadPlaces(head, k.0, k.1, k.2)| <= |BasePlaces(base, renames, k.0, k.1, k.2)|;
      }
    }
  }

  // ---- Totals ---------------------------------------------------------------------------------

  /** The sum of a count map. */
  ghost function Total<K(!new)>(m: map<K, nat>): nat
    decreases |m|
  {
    if m == map[] then 0
    else
      var k :| k in m;
      m[k] + Total(m - {k})
  }

  lemma {:induction false} TotalWithout<K(!new)>(m: map<K, nat>, k: K)
    requires k in m
    ensures Total(m) == m[k] + Total(m - {k})
    decreases |m|
  {
    var j :| j in m && Total(m) == m[j] + Total(m - {j});
    if j != k {
      TotalWithout(m - {j}, k);
      TotalWithout(m - {k}, j);
      assert m - {j} - {k} == m - {k} - {j};
    }
  }

  lemma TotalUpdate<K(!new)>(m: map<K, nat>, k: K, n: nat)
    ensures Total(m[k := n]) == Total(m) - Get(m, k) + n
  {
    TotalWithout(m[k := n], k);
    if k in m {
      TotalWithout(m, k);
      assert m[k := n] - {k} == m - {k};
    } else {
      assert m[k := n] - {k} == m;
    }
  }

  /** What the files that end up under one name had together. */
  ghost function Gathered(counts: map<string, nat>, renames: map<string, string>, target: string): nat {
    Total(map file | file in counts && Renamed(file, renames) == target :: counts[file])
  }

  ghost predicate Rehomed(counts: map<string, nat>, renames: map<string, string>, out: map<string, nat>) {
    forall target :: Get(out, target) == Gathered(counts, renames, target)
  }

  /**
   * A count map under the head's file names, two files that became one added up: no key gains or
   * loses, and the total stays.
   */
  method RehomeCounts(counts: map<string, nat>, renames: map<string, string>) returns (out: map<string, nat>)
    ensures Rehomed(counts, renames, out)
    ensures Total(out) == Total(counts)
  {
    hide Gathered, Total, HomedBut;
    out := map[];
    var rest := counts;
    GatherNone(counts, renames);
    while rest != map[]
      invariant rest.Keys <= counts.Keys && forall file :: file in rest ==> rest[file] == counts[file]
      invariant HomedBut(counts, renames, rest.Keys, out)
      invariant Total(out) + Total(rest) == Total(counts)
      decreases |rest|
    {
      var file :| file in rest;
      var target := Renamed(file, renames);
      assert rest.Keys - {file} == (rest - {file}).Keys;
      HomeOne(counts, renames, rest.Keys, out, file);
      TotalUpdate(out, target, Get(out, target) + rest[file]);
      TotalWithout(rest, file);
      out := out[target := Get(out, target) + rest[file]];
      rest := rest - {file};
    }
    AllHomed(counts, renames, out);
    TotalOfNothing<string>();
  }

  /** All files but `rest` have been gathered under their new names. */
  ghost predicate HomedBut(counts: map<string, nat>, renames: map<string, string>, rest: set<string>, out: map<string, nat>) {
    forall target :: Get(out, target) == Gathered(counts - rest, renames, target)
  }

  lemma HomeOne(counts: map<string, nat>, renames: map<string, string>, rest: set<string>, out: map<string, nat>, file: string)
    requires rest <= counts.Keys && file in rest && HomedBut(counts, renames, rest, out)
    ensures var target := Renamed(file, renames);
      HomedBut(counts, renames, rest - {file}, out[target := Get(out, target) + counts[file]])
  {
    GatherOne(counts, renames, rest, file);
    hide Gathered, Renamed;
  }

  lemma AllHomed(counts: map<string, nat>, renames: map<string, string>, out: map<string, nat>)
    requires HomedBut(counts, renames, {}, out)
    ensures Rehomed(counts, renames, out)
  {
    hide Gathered;
    assert counts - {} == counts;
  }

  lemma TotalOfNothing<K(!new)>()
    ensures Total<K>(map[]) == 0
  {
  }

  lemma GatherNone(counts: map<string, nat>, renames: map<string, string>)
    ensures HomedBut(counts, renames, counts.Keys, map[])
    ensures Total<string>(map[]) == 0
  {
    forall target ensures Gathered(counts - counts.Keys, renames, target) == 0
    {
      var none := counts - counts.Keys;
      assert (map file | file in none && Renamed(file, renames) == target :: none[file]) == map[];
    }
  }

  /** One more file adds its count to the name it ends up under, and to no other. */
  lemma GatherOne(counts: map<string, nat>, renames: map<string, string>, rest: set<string>, file: string)
    requires rest <= counts.Keys && file in rest
    ensures forall target {:trigger Gathered(counts - (rest - {file}), renames, target)} ::
      (Gathered(counts - (rest - {file}), renames, target)
       == Gathered(counts - rest, renames, target) + (if target == Renamed(file, renames) then counts[file] else 0))
  {
    var before, after := counts - rest, counts - (rest - {file});
    forall target
      ensures Gathered(after, renames, target)
           == Gathered(before, renames, target) + (if target == Renamed(file, renames) then counts[file] else 0)
    {
      var a := map f | f in before && Renamed(f, renames) == target :: before[f];
      var b := map f | f in after && Renamed(f, renames) == target :: after[f];
      if target == Renamed(file, renames) {
        assert b == a[file := counts[file]];
        TotalUpdate(a, file, counts[file]);
      } else {
        assert b == a;
      }
    }
  }

  /** Whatever the files were renamed to, their counts together stay the same. */
  lemma {:induction false} RehomedTotal(counts: map<string, nat>, renames: map<string, string>, out: map<string, nat>)
    requires Rehomed(counts, renames, out)
    ensures Total(out) == Total(counts)
    decreases |counts|
  {
    hide Gathered, Total;
    if counts == map[] {
      GatherNone(counts, renames);
      assert counts - counts.Keys == counts;
      TotalOfZero(out);
    } else {
      var file :| file in counts;
      var target := Renamed(file, renames);
      GatherOne(counts, renames, {file}, file);
      assert {file} - {file} == {} && counts - {} == counts;
      assert Gathered(counts, renames, target) == Gathered(counts - {file}, renames, target) + counts[file];
      var less := Get(out, target) - counts[file];
      forall t ensures Get(out[target := less], t) == Gathered(counts - {file}, renames, t) {
        assert Gathered(counts, renames, t) == Gathered(counts - ({file} - {file}), renames, t);
      }
      RehomedTotal(counts - {file}, renames, out[target := less]);
      TotalUpdate(out, target, less);
      TotalWithout(counts, file);
    }
  }

  // ---- Chains of commits ----------------------------------------------------------------------

  ghost predicate Tallies<T, K(!new)>(budget: map<K, nat>, items: seq<T>, key: T -> K) {
    forall k :: Get(budget, k) == Count(items, key, k)
  }

  /** The total of a budget is the number of findings it was counted from, whatever they were renamed to. */
  lemma {:induction false} TotalOfTally<T, K(!new)>(budget: map<K, nat>, items: seq<T>, key: T -> K)
    requires Tallies(budget, items, key)
    ensures Total(budget) == |items|
    decreases |items|
  {
    if items == [] {
      TotalOfZero(budget);
    } else {
      var before, item := items[..|items| - 1], items[|items| - 1];
      assert Get(budget, key(item)) == Count(items, key, key(item));
      var less := budget[key(item) := Get(budget, key(item)) - 1];
      forall k ensures Get(less, k) == Count(before, key, k)
      {
        assert Get(budget, k) == Count(items, key, k);
      }
      TotalOfTally(less, before, key);
      TotalUpdate(budget, key(item), Get(budget, key(item)) - 1);
    }
  }

  lemma {:induction false} TotalOfZero<K(!new)>(m: map<K, nat>)
    requires forall k :: Get(m, k) == 0
    ensures Total(m) == 0
    decreases |m|
  {
    if m != map[] {
      var k :| k in m && Total(m) == m[k] + Total(m - {k});
      assert Get(m, k) == 0;
      forall j ensures Get(m - {k}, j) == 0
      {
        assert Get(m, j) == 0;
      }
      TotalOfZero(m - {k});
    }
  }

  lemma {:induction false} TotalMonotone<K(!new)>(m: map<K, nat>, n: map<K, nat>)
    requires forall k :: Get(m, k) <= Get(n, k)
    ensures Total(m) <= Total(n)
    decreases |m|
  {
    if m != map[] {
      var k :| k in m && Total(m) == m[k] + Total(m - {k});
      assert Get(m, k) <= Get(n, k);
      var rest := n[k := Get(n, k) - m[k]];
      forall j ensures Get(m - {k}, j) <= Get(rest, j)
      {
        assert Get(m, j) <= Get(n, j);
      }
      TotalMonotone(m - {k}, rest);
      TotalUpdate(n, k, Get(n, k) - m[k]);
    }
  }

  /** The counts of a list, as a map. */
  function Tally<T, K(==)>(items: seq<T>, key: T -> K): (m: map<K, nat>)
  {
    if items == [] then map[]
    else
      var m, k := Tally(items[..|items| - 1], key), key(items[|items| - 1]);
      m[k := Get(m, k) + 1]
  }

  lemma {:induction false} TallyCounts<T, K(!new)>(items: seq<T>, key: T -> K)
    ensures Tallies(Tally(items, key), items, key)
  {
    if items != [] {
      TallyCounts(items[..|items| - 1], key);
    }
  }

  /** A passing head has no more findings than the budget allows in all. */
  lemma PassingFitsTotal<T, K(!new)>(items: seq<T>, key: T -> K, budget: map<K, nat>)
    requires Flagged(items, key, budget) == []
    ensures |items| <= Total(budget)
  {
    PassesIffWithinBudget(items, key, budget);
    TallyCounts(items, key);
    TotalOfTally(Tally(items, key), items, key);
    TotalMonotone(Tally(items, key), budget);
  }

  /** One commit after another passes against the findings of the commit before it. */
  ghost predicate PassingChain(commits: seq<seq<Finding>>, renames: seq<map<string, string>>, budgets: seq<map<FindingKey, nat>>) {
    && |commits| == |renames| + 1 && |budgets| == |renames|
    && (forall i :: 0 <= i < |renames| ==> PassingStep(commits, renames, budgets, i))
  }

  ghost predicate PassingStep(
      commits: seq<seq<Finding>>, renames: seq<map<string, string>>, budgets: seq<map<FindingKey, nat>>, i: nat)
    requires |commits| == |renames| + 1 && |budgets| == |renames| && i < |renames|
  {
    && Tallies(budgets[i], commits[i], RenamedKey(renames[i]))
    && Flagged(commits[i + 1], KeyOf, budgets[i]) == []
  }

  /** Over any chain of passing commits, with any renames between them, the findings never grow in number. */
  lemma {:induction false} DebtNeverGrows(
      commits: seq<seq<Finding>>, renames: seq<map<string, string>>, budgets: seq<map<FindingKey, nat>>, i: nat, j: nat)
    requires PassingChain(commits, renames, budgets) && i <= j < |commits|
    ensures |commits[j]| <= |commits[i]|
    decreases j
  {
    if i < j {
      DebtNeverGrows(commits, renames, budgets, i, j - 1);
      assert PassingStep(commits, renames, budgets, j - 1);
      PassingFitsTotal(commits[j], KeyOf, budgets[j - 1]);
      TotalOfTally(budgets[j - 1], commits[j - 1], RenamedKey(renames[j - 1]));
    }
  }

  // ---- The draft-status gates -----------------------------------------------------------------

  datatype Site = Site(file: string, line: nat, hasDraftStatus: bool)

  function FileOf(s: Site): string { s.file }

  /** The insert sites without the key. */
  function Missing(sites: seq<Site>): seq<Site> {
    if sites == [] then []
    else
      var site := sites[|sites| - 1];
      Missing(sites[..|sites| - 1]) + (if site.hasDraftStatus then [] else [site])
  }

  /** The write gate: sites with the key do not count, the others up to their file's budget do not fail. */
  method ValidateDraftGate(sites: seq<Site>, baseMissing: map<string, nat>)
      returns (ok: bool, flagged: seq<Site>, grandfathered: seq<Site>)
    ensures flagged == Flagged(Missing(sites), FileOf, baseMissing)
    ensures grandfathered == Tolerated(Missing(sites), FileOf, baseMissing)
    ensures ok <==> forall file :: |MissingPlaces(sites, file)| <= Get(baseMissing, file)
  {
    hide Flagged, Tolerated, Count, Missing, Get, Tallies, MissingPlaces;
    var used: map<string, nat> := map[];
    flagged, grandfathered := [], [];
    DraftStart(baseMissing);
    assert sites[..0] == [];
    for i := 0 to |sites|
      invariant Tallies(used, Missing(sites[..i]), FileOf)
      invariant flagged == Flagged(Missing(sites[..i]), FileOf, baseMissing)
      invariant grandfathered == Tolerated(Missing(sites[..i]), FileOf, baseMissing)
    {
      var site := sites[i];
      MissingStep(sites, i);
      if !site.hasDraftStatus {
        DraftStep(used, Missing(sites[..i]), site, baseMissing);
        var count := Get(used, site.file) + 1;
        used := used[site.file := count];
        if count <= Get(baseMissing, site.file) {
          grandfathered := grandfathered + [site];
        } else {
          flagged := flagged + [site];
        }
      }
    }
    assert sites[..|sites|] == sites;
    PassesIffWithinBudget(Missing(sites), FileOf, baseMissing);
    forall file ensures Count(Missing(sites), FileOf, file) == |MissingPlaces(sites, file)| { MissingIsPlaces(sites, file); }
    ok := |flagged| == 0;
  }

  lemma DraftStart(baseMissing: map<string, nat>)
    ensures Missing([]) == [] && Tallies(map[], [], FileOf)
    ensures Flagged([], FileOf, baseMissing) == [] && Tolerated([], FileOf, baseMissing) == []
  {
  }

  /** One more counted site: the tally, and on which side the site falls. */
  lemma DraftStep(used: map<string, nat>, before: seq<Site>, site: Site, baseMissing: map<string, nat>)
    requires Tallies(used, before, FileOf)
    ensures Tallies(used[site.file := Get(used, site.file) + 1], before + [site], FileOf)
    ensures var within := Get(used, site.file) + 1 <= Get(baseMissing, site.file);
      var flagged, tolerated := Flagged(before, FileOf, baseMissing), Tolerated(before, FileOf, baseMissing);
      && Flagged(before + [site], FileOf, baseMissing) == (if within then flagged else flagged + [site])
      && Tolerated(before + [site], FileOf, baseMissing) == (if within then tolerated + [site] else tolerated)
  {
    hide Flagged, Tolerated, Count;
    OneMore(before, site, FileOf, baseMissing);
    assert Get(used, site.file) == Count(before, FileOf, site.file);
    forall file ensures Count(before + [site], FileOf, file) == Count(before, FileOf, file) + (if site.file == file then 1 else 0) {
      CountSnoc(before, site, FileOf, file);
    }
  }

  lemma MissingStep(sites: seq<Site>, i: nat)
    requires i < |sites|
    ensures Missing(sites[..i + 1]) == if sites[i].hasDraftStatus then Missing(sites[..i]) else Missing(sites[..i]) + [sites[i]]
  {
    assert sites[..i + 1][..i] == sites[..i];
  }

  /** The places of the insert sites of a file that lack the key. */
  ghost function MissingPlaces(sites: seq<Site>, file: string): set<int> {
    set i | 0 <= i < |sites| && sites[i].file == file && !sites[i].hasDraftStatus
  }

  lemma MissingPlacesSnoc(sites: seq<Site>, site: Site, file: string)
    ensures |MissingPlaces(sites + [site], file)|
         == |MissingPlaces(sites, file)| + if site.file == file && !site.hasDraftStatus then 1 else 0
  {
    var before, after, n := MissingPlaces(sites, file), MissingPlaces(sites + [site], file), |sites|;
    if site.file == file && !site.hasDraftStatus {
      assert after == before + {n};
    } else {
      assert after == before;
    }
  }

  lemma {:induction false} MissingIsPlaces(sites: seq<Site>, file: string)
    ensures Count(Missing(sites), FileOf, file) == |MissingPlaces(sites, file)|
    decreases |sites|
  {
    if sites == [] {
      assert MissingPlaces(sites, file) == {};
    } else {
      var before, site := sites[..|sites| - 1], sites[|sites| - 1];
      assert sites == before + [site];
      MissingIsPlaces(before, file);
      MissingPlacesSnoc(before, site, file);
      CountSnoc(Missing(before), site, FileOf, file);
      assert Missing(before) + [] == Missing(before);
      hide MissingPlaces, Count;
    }
  }

  /** The read gate: both kinds of finding within their own budgets, and the helper definitions intact. */
  method ValidateReadGate<H, U>(
      hits: seq<H>, hitFile: H -> string, unknown: seq<U>, unknownFile: U -> string,
      baseHits: map<string, nat>, baseUnknown: map<string, nat>, helperIssues: seq<string>)
      returns (ok: bool, flaggedHits: seq<H>, flaggedUnknown: seq<U>)
    ensures flaggedHits == Flagged(hits, hitFile, baseHits) && flaggedUnknown == Flagged(unknown, unknownFile, baseUnknown)
    ensures ok <==>
              && (forall file :: Count(hits, hitFile, file) <= Get(baseHits, file))
              && (forall file :: Count(unknown, unknownFile, file) <= Get(baseUnknown, file))
              && helperIssues == []
  {
    var tolerated, toleratedUnknown;
    flaggedHits, tolerated := Partition(hits, hitFile, baseHits);
    flaggedUnknown, toleratedUnknown := Partition(unknown, unknownFile, baseUnknown);
    PassesIffWithinBudget(hits, hitFile, baseHits);
    PassesIffWithinBudget(unknown, unknownFile, baseUnknown);
    ok := |flaggedHits| == 0 && |flaggedUnknown| == 0 && |helperIssues| == 0;
  }

  // ---- Chains of commits, counted per file -----------------------------------------------------

  /** What one commit leaves to the next: its counts per file, the renames and the re-homed budget. */
  datatype Handover = Handover(counts: map<string, nat>, renames: map<string, string>, budget: map<string, nat>)

  /** The head passes against the base's counts under the names the files have at the head. */
  ghost predicate HandedOver<T>(base: seq<T>, head: seq<T>, file: T -> string, h: Handover) {
    && Tallies(h.counts, base, file)
    && Rehomed(h.counts, h.renames, h.budget)
    && Flagged(head, file, h.budget) == []
  }

  lemma HandoverNeverGrows<T>(base: seq<T>, head: seq<T>, file: T -> string, h: Handover)
    requires HandedOver(base, head, file, h)
    ensures |head| <= |base|
  {
    TotalOfTally(h.counts, base, file);
    RehomedTotal(h.counts, h.renames, h.budget);
    PassingFitsTotal(head, file, h.budget);
  }

  /** One commit after another passes the write gate. */
  ghost predicate DraftChain(commits: seq<seq<Site>>, handovers: seq<Handover>) {
    && |commits| == |handovers| + 1
    && (forall i :: 0 <= i < |handovers| ==>
          HandedOver(Missing(commits[i]), Missing(commits[i + 1]), FileOf, handovers[i]))
  }

  /** Over any chain of commits that pass the write gate, the insert sites without the key never grow in number. */
  lemma {:induction false} MissingSitesNeverGrow(commits: seq<seq<Site>>, handovers: seq<Handover>, i: nat, j: nat)
    requires DraftChain(commits, handovers) && i <= j < |commits|
    ensures |Missing(commits[j])| <= |Missing(commits[i])|
    decreases j
  {
    if i < j {
      MissingSitesNeverGrow(commits, handovers, i, j - 1);
      HandoverNeverGrows(Missing(commits[j - 1]), Missing(commits[j]), FileOf, handovers[j - 1]);
    }
  }

  /** What the read gate finds in one commit. */
  datatype ReadFindings<H, U> = ReadFindings(hits: seq<H>, unknown: seq<U>)

  /** One commit after another passes the read gate, each kind of finding against its own budget. */
  ghost predicate ReadChain<H, U>(
      commits: seq<ReadFindings<H, U>>, hitFile: H -> string, unknownFile: U -> string,
      hitHandovers: seq<Handover>, unknownHandovers: seq<Handover>) {
    && |commits| == |hitHandovers| + 1 == |unknownHandovers| + 1
    && (forall i :: 0 <= i < |hitHandovers| ==>
          && HandedOver(commits[i].hits, commits[i + 1].hits, hitFile, hitHandovers[i])
          && HandedOver(commits[i].unknown, commits[i + 1].unknown, unknownFile, unknownHandovers[i]))
  }

  /** Over any chain of commits that pass the read gate, neither kind of finding grows in number. */
  lemma {:induction false} ReadDebtNeverGrows<H, U>(
      commits: seq<ReadFindings<H, U>>, hitFile: H -> string, unknownFile: U -> string,
      hitHandovers: seq<Handover>, unknownHandovers: seq<Handover>, i: nat, j: nat)
    requires ReadChain(commits, hitFile, unknownFile, hitHandovers, unknownHandovers) && i <= j < |commits|
    ensures |commits[j].hits| <= |commits[i].hits|
    ensures |commits[j].unknown| <= |commits[i].unknown|
    decreases j
  {
    if i < j {
      ReadDebtNeverGrows(commits, hitFile, unknownFile, hitHandovers, unknownHandovers, i, j - 1);
      HandoverNeverGrows(commits[j - 1].hits, commits[j].hits, hitFile, hitHandovers[j - 1]);
      HandoverNeverGrows(commits[j - 1].unknown, commits[j].unknown, unknownFile, unknownHandovers[j - 1]);
    }
  }
}
