/** Code-unit order on strings, and lists sorted by it. */
module Ordering {

  /** `a` comes strictly before `b`. */
  predicate Less(a: string, b: string)
    decreases |b|
  {
    b != "" && (a == "" || a[0] < b[0] || (a[0] == b[0] && Less(a[1..], b[1..])))
  }

  lemma {:induction false} LessTrans(a: string, b: string, c: string)
    requires !Less(b, a) && !Less(c, b)
    ensures !Less(c, a)
    decreases |a|
  {
    if a != "" && c != "" && a[0] == c[0] && b != "" && b[0] == a[0] {
      LessTrans(a[1..], b[1..], c[1..]);
    }
  }

  lemma {:induction false} LessTotal(a: string, b: string)
    requires !Less(a, b) && !Less(b, a)
    ensures a == b
    decreases |a|
  {
    if a != "" && b != "" {
      LessTotal(a[1..], b[1..]);
      assert a == [a[0]] + a[1..] && b == [b[0]] + b[1..];
    }
  }

  lemma {:induction false} LessIrreflexive(a: string)
    ensures !Less(a, a)
    decreases |a|
  {
    if a != "" { LessIrreflexive(a[1..]); }
  }

  /**
   * `a` is smaller exactly when it is a proper prefix of `b`, or has the smaller character at
   * the first place where the two differ.
   */
  lemma {:induction false} LessIff(a: string, b: string)
    ensures Less(a, b) <==>
      || (|a| < |b| && a == b[..|a|])
      || (exists k :: 0 <= k < |a| && k < |b| && a[..k] == b[..k] && a[k] < b[k])
    decreases |a|
  {
    if a != "" && b != "" {
      if a[0] == b[0] {
        LessIff(a[1..], b[1..]);
        assert a == [a[0]] + a[1..] && b == [b[0]] + b[1..];
        TailsDiffer(a, b);
        hide Less;
      } else {
        assert a[..0] == b[..0];
        assert forall k :: 0 < k <= |a| && k <= |b| && a[..k] == b[..k] ==> a[..k][0] == b[..k][0];
      }
    }
  }

  lemma TailsDiffer(a: string, b: string)
    requires a != "" && b != "" && a[0] == b[0]
    ensures (|a| < |b| && a == b[..|a|]) <==> (|a[1..]| < |b[1..]| && a[1..] == b[1..][..|a[1..]|])
    ensures
      (exists k :: 0 <= k < |a| && k < |b| && a[..k] == b[..k] && a[k] < b[k]) <==>
      (exists k :: 0 <= k < |a[1..]| && k < |b[1..]| && a[1..][..k] == b[1..][..k] && a[1..][k] < b[1..][k])
  {
    var s, t := a[1..], b[1..];
    if |a| <= |b| {
      assert b[..|a|] == [b[0]] + t[..|s|] && a == [a[0]] + s;
    }
    if k :| 0 <= k < |a| && k < |b| && a[..k] == b[..k] && a[k] < b[k] {
      assert s[..k - 1] == a[..k][1..] && t[..k - 1] == b[..k][1..];
      assert s[k - 1] < t[k - 1];
    }
    if k :| 0 <= k < |s| && k < |t| && s[..k] == t[..k] && s[k] < t[k] {
      assert a[..k + 1] == [a[0]] + s[..k] && b[..k + 1] == [b[0]] + t[..k];
      assert a[k + 1] < b[k + 1];
    }
  }

  /** No line comes before its predecessor. */
  predicate Sorted(lines: seq<string>) {
    forall i :: 0 < i < |lines| ==> !Less(lines[i], lines[i - 1])
  }

  lemma {:induction false} SortedEverywhere(lines: seq<string>, i: nat, j: nat)
    requires Sorted(lines) && i <= j < |lines|
    ensures !Less(lines[j], lines[i])
    decreases j
  {
    if i == j {
      LessIrreflexive(lines[i]);
    } else {
      SortedEverywhere(lines, i, j - 1);
      LessTrans(lines[i], lines[j - 1], lines[j]);
    }
  }

  lemma LastIsGreatest(lines: seq<string>, x: string)
    requires Sorted(lines) && x in lines
    ensures !Less(lines[|lines| - 1], x)
  {
    var i :| 0 <= i < |lines| && lines[i] == x;
    SortedEverywhere(lines, i, |lines| - 1);
  }

  lemma DropLast(lines: seq<string>)
    requires lines != []
    ensures multiset(lines[..|lines| - 1]) == multiset(lines) - multiset{lines[|lines| - 1]}
    ensures Sorted(lines) ==> Sorted(lines[..|lines| - 1])
  {
    assert lines == lines[..|lines| - 1] + [lines[|lines| - 1]];
  }

  lemma SameLast(a: seq<string>, b: seq<string>)
    requires Sorted(a) && Sorted(b) && multiset(a) == multiset(b) && a != [] && b != []
    ensures a[|a| - 1] == b[|b| - 1]
  {
    hide Less, Sorted;
    var x, y := a[|a| - 1], b[|b| - 1];
    assert x in multiset(a) && y in multiset(b);
    LastIsGreatest(a, y);
    LastIsGreatest(b, x);
    LessTotal(x, y);
  }

  /** A sorted list is determined by which strings it contains, and how often. */
  lemma {:induction false} SortedIsUnique(a: seq<string>, b: seq<string>)
    requires Sorted(a) && Sorted(b) && multiset(a) == multiset(b)
    ensures a == b
    decreases |a|
  {
    hide Less, Sorted;
    SameLengths(a, b);
    if a != [] {
      var x, front, other := a[|a| - 1], a[..|a| - 1], b[..|b| - 1];
      SameLast(a, b);
      assert a == front + [x] && b == other + [x];
      DropLast(a);
      DropLast(b);
      SortedIsUnique(front, other);
    }
  }

  // ---- Sorting by a string key ----------------------------------------------------------------

  function Insert<T>(x: T, s: seq<T>, key: T -> string): (t: seq<T>)
    ensures |t| == |s| + 1
  {
    if s == [] then [x]
    else if Less(key(s[|s| - 1]), key(x)) then s + [x]
    else Insert(x, s[..|s| - 1], key) + [s[|s| - 1]]
  }

  function SortBy<T>(s: seq<T>, key: T -> string): seq<T> {
    if s == [] then [] else Insert(s[|s| - 1], SortBy(s[..|s| - 1], key), key)
  }

  function Keys<T>(s: seq<T>, key: T -> string): seq<string> {
    if s == [] then [] else Keys(s[..|s| - 1], key) + [key(s[|s| - 1])]
  }

  lemma {:induction false} KeysAt<T>(s: seq<T>, key: T -> string)
    ensures |Keys(s, key)| == |s| && forall i :: 0 <= i < |s| ==> Keys(s, key)[i] == key(s[i])
    decreases |s|
  {
    if s != [] { KeysAt(s[..|s| - 1], key); }
  }

  lemma {:induction false} InsertPermutes<T>(x: T, s: seq<T>, key: T -> string)
    ensures multiset(Insert(x, s, key)) == multiset(s) + multiset{x}
    decreases |s|
  {
    if s != [] {
      assert s == s[..|s| - 1] + [s[|s| - 1]];
      InsertPermutes(x, s[..|s| - 1], key);
    }
  }

  lemma LessAsymmetric(a: string, b: string)
    requires Less(a, b)
    ensures !Less(b, a)
    decreases |a|
  {
    if a != "" && a[0] == b[0] { LessAsymmetric(a[1..], b[1..]); }
  }

  lemma {:induction false} InsertSorts<T>(x: T, s: seq<T>, key: T -> string)
    requires Sorted(Keys(s, key))
    ensures Sorted(Keys(Insert(x, s, key), key))
    ensures
      var last := key(Insert(x, s, key)[|s|]);
      (last == key(x) || (s != [] && last == key(s[|s| - 1]) && !Less(last, key(x))))
    decreases |s|
  {
    hide Less;
    var t := Insert(x, s, key);
    KeysAt(s, key);
    KeysAt(t, key);
    if s == [] {
      return;
    }
    var last := s[|s| - 1];
    if Less(key(last), key(x)) {
      LessAsymmetric(key(last), key(x));
      assert forall i :: 0 <= i < |s| ==> Keys(t, key)[i] == Keys(s, key)[i];
    } else {
      var front := s[..|s| - 1];
      KeysAt(front, key);
      assert forall i :: 0 <= i < |front| ==> Keys(front, key)[i] == Keys(s, key)[i];
      InsertSorts(x, front, key);
      var u := Insert(x, front, key);
      KeysAt(u, key);
      assert forall i :: 0 <= i < |u| ==> Keys(t, key)[i] == Keys(u, key)[i];
      assert front != [] ==> !Less(Keys(s, key)[|s| - 1], Keys(s, key)[|s| - 2]);
    }
  }

  lemma EmptyIsSorted()
    ensures Sorted([])
  {
  }

  lemma {:induction false} SortBySorts<T>(s: seq<T>, key: T -> string)
    ensures multiset(SortBy(s, key)) == multiset(s) && Sorted(Keys(SortBy(s, key), key))
    decreases |s|
  {
    hide Less, Sorted, Insert;
    if s == [] {
      EmptyIsSorted();
    } else {
      var front := s[..|s| - 1];
      SortBySorts(front, key);
      InsertPermutes(s[|s| - 1], SortBy(front, key), key);
      InsertSorts(s[|s| - 1], SortBy(front, key), key);
      assert s == front + [s[|s| - 1]];
    }
  }

  /** Two sorted lists with the same elements agree when no two elements share a key. */
  lemma {:induction false} SortedByKeyIsUnique<T>(a: seq<T>, b: seq<T>, key: T -> string)
    requires multiset(a) == multiset(b) && Sorted(Keys(a, key)) && Sorted(Keys(b, key))
    requires forall x, y :: x in a && y in a && key(x) == key(y) ==> x == y
    ensures a == b
    decreases |a|
  {
    hide Less, Sorted, Keys;
    SameLengths(a, b);
    if a != [] {
      SameLastKey(a, b, key);
      DropLastKey(a, key);
      DropLastKey(b, key);
      SortedByKeyIsUnique(a[..|a| - 1], b[..|b| - 1], key);
      SameParts(a, b);
    }
  }

  lemma SameParts<T>(a: seq<T>, b: seq<T>)
    requires a != [] && b != [] && a[..|a| - 1] == b[..|b| - 1] && a[|a| - 1] == b[|b| - 1]
    ensures a == b
  {
    assert a == a[..|a| - 1] + [a[|a| - 1]] && b == b[..|b| - 1] + [b[|b| - 1]];
  }

  lemma SameLengths<T>(a: seq<T>, b: seq<T>)
    requires multiset(a) == multiset(b)
    ensures |a| == |b|
  {
    assert |multiset(a)| == |a| && |multiset(b)| == |b|;
  }

  lemma SameLastKey<T>(a: seq<T>, b: seq<T>, key: T -> string)
    requires multiset(a) == multiset(b) && Sorted(Keys(a, key)) && Sorted(Keys(b, key)) && a != [] && b != []
    requires forall x, y :: x in a && y in a && key(x) == key(y) ==> x == y
    ensures a[|a| - 1] == b[|b| - 1]
  {
    hide Less, Sorted, Keys;
    var x, y := a[|a| - 1], b[|b| - 1];
    assert x in multiset(a) && y in multiset(b);
    assert x in b && y in a;
    KeyIsGreatest(a, y, key);
    KeyIsGreatest(b, x, key);
    LessTotal(key(x), key(y));
  }

  lemma KeyIsGreatest<T>(s: seq<T>, x: T, key: T -> string)
    requires Sorted(Keys(s, key)) && x in s
    ensures !Less(key(s[|s| - 1]), key(x))
  {
    KeysAt(s, key);
    var i :| 0 <= i < |s| && s[i] == x;
    SortedEverywhere(Keys(s, key), i, |s| - 1);
  }

  lemma DropLastKey<T>(s: seq<T>, key: T -> string)
    requires s != []
    ensures multiset(s[..|s| - 1]) == multiset(s) - multiset{s[|s| - 1]}
    ensures Sorted(Keys(s, key)) ==> Sorted(Keys(s[..|s| - 1], key))
    ensures forall x :: x in s[..|s| - 1] ==> x in s
  {
    hide Less, Sorted;
    var front := s[..|s| - 1];
    assert s == front + [s[|s| - 1]];
    SortedPrefix(Keys(front, key), key(s[|s| - 1]));
  }

  lemma SortedPrefix(front: seq<string>, last: string)
    ensures Sorted(front + [last]) ==> Sorted(front)
  {
    hide Less;
    var all := front + [last];
    assert forall i :: 0 <= i < |front| ==> all[i] == front[i];
  }

  /** Sorting forgets exactly the order. */
  lemma SortByEqualIff<T>(a: seq<T>, b: seq<T>, key: T -> string)
    requires forall x, y :: x in a && y in a && key(x) == key(y) ==> x == y
    ensures SortBy(a, key) == SortBy(b, key) <==> multiset(a) == multiset(b)
  {
    SortBySorts(a, key);
    SortBySorts(b, key);
    if multiset(a) == multiset(b) {
      forall x | x in SortBy(a, key) ensures x in a {
        assert x in multiset(SortBy(a, key));
      }
      SortedByKeyIsUnique(SortBy(a, key), SortBy(b, key), key);
    }
  }
}
