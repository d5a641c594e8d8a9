/** Sequence operations that the queries of the system are built from:
    LINQ's Where, Select, OrderBy, OrderByDescending, GroupBy/Count and Sum. */
module Collections {

  ghost predicate NoDups<T>(s: seq<T>) {
    forall i, j :: 0 <= i < j < |s| ==> s[i] != s[j]
  }

  /** No two elements of s share a key. */
  ghost predicate DistinctBy<T, K>(s: seq<T>, key: T -> K) {
    forall i, j :: 0 <= i < j < |s| ==> key(s[i]) != key(s[j])
  }

  // ---------------------------------------------------------------- Where

  /** The elements of s that satisfy p, in their order in s. */
  function Filter<T(!new)>(s: seq<T>, p: T -> bool): (r: seq<T>)
    ensures |r| <= |s|
    ensures forall x :: x in r <==> x in s && p(x)
    ensures forall x :: multiset(r)[x] == if p(x) then multiset(s)[x] else 0
  {
    if s == [] then []
    else
      assert s == [s[0]] + s[1..];
      (if p(s[0]) then [s[0]] else []) + Filter(s[1..], p)
  }

  /** Filtering with a predicate every element meets is the identity. */
  lemma {:induction false} FilterAll<T(!new)>(s: seq<T>, p: T -> bool)
    requires forall x :: x in s ==> p(x)
    ensures Filter(s, p) == s
  {
    if s != [] {
      FilterAll(s[1..], p);
    }
  }

  /** A relation that holds between every earlier and later element of s. */
  ghost predicate Pairwise<T>(s: seq<T>, rel: (T, T) -> bool) {
    forall i, j :: 0 <= i < j < |s| ==> rel(s[i], s[j])
  }

  /** A relation that held pairwise on s still holds on its tail. */
  lemma PairwiseTail<T>(s: seq<T>, rel: (T, T) -> bool)
    requires s != [] && Pairwise(s, rel)
    ensures Pairwise(s[1..], rel)
    ensures forall y :: y in s[1..] ==> rel(s[0], y)
  {
    forall i, j | 0 <= i < j < |s[1..]| ensures rel(s[1..][i], s[1..][j]) {
      assert s[1..][i] == s[i + 1] && s[1..][j] == s[j + 1];
    }
    forall y | y in s[1..] ensures rel(s[0], y) {
      var k :| 0 <= k < |s[1..]| && s[1..][k] == y;
      assert s[k + 1] == y;
    }
  }

  /** Putting x in front of rest keeps a pairwise relation when x is related to all of rest. */
  lemma PairwiseCons<T>(x: T, rest: seq<T>, rel: (T, T) -> bool)
    requires Pairwise(rest, rel)
    requires forall y :: y in rest ==> rel(x, y)
    ensures Pairwise([x] + rest, rel)
  {
    var r := [x] + rest;
    forall i, j | 0 <= i < j < |r| ensures rel(r[i], r[j]) {
      assert r[j] == rest[j - 1] && r[j] in rest;
      if i > 0 {
        assert r[i] == rest[i - 1];
      }
    }
  }

  /** Filtering keeps a relation that held between all earlier and later elements. */
  lemma {:induction false} FilterKeepsPairwise<T(!new)>(s: seq<T>, p: T -> bool, rel: (T, T) -> bool)
    requires Pairwise(s, rel)
    ensures Pairwise(Filter(s, p), rel)
  {
    if s != [] {
      PairwiseTail(s, rel);
      FilterKeepsPairwise(s[1..], p, rel);
      var rest := Filter(s[1..], p);
      if p(s[0]) {
        assert Filter(s, p) == [s[0]] + rest;
        PairwiseCons(s[0], rest, rel);
      } else {
        assert Filter(s, p) == rest;
      }
    }
  }

  /** A duplicate-free sequence drawn from a sequence with distinct keys has distinct keys. */
  lemma DrawnKeepsDistinctBy<T, K>(r: seq<T>, s: seq<T>, key: T -> K)
    requires NoDups(r)
    requires forall y :: y in r ==> y in s
    requires DistinctBy(s, key)
    ensures DistinctBy(r, key)
  {
    forall i, j | 0 <= i < j < |r| ensures key(r[i]) != key(r[j]) {
      assert r[i] in r && r[j] in r;
      var p :| 0 <= p < |s| && s[p] == r[i];
      var q :| 0 <= q < |s| && s[q] == r[j];
      assert p != q;
    }
  }

  /** Filtering keeps keys distinct. */
  lemma FilterKeepsDistinctBy<T(!new), K>(s: seq<T>, p: T -> bool, key: T -> K)
    requires DistinctBy(s, key)
    ensures DistinctBy(Filter(s, p), key)
  {
    var rel := (x: T, y: T) => key(x) != key(y);
    assert Pairwise(s, rel);
    FilterKeepsPairwise(s, p, rel);
  }

  /** When exactly one element of s has key k and keys are distinct,
      removing the elements with key k shortens s by one. */
  lemma {:induction false} FilterRemovesOne<T(!new), K>(s: seq<T>, key: T -> K, k: K, p: T -> bool)
    requires DistinctBy(s, key)
    requires exists i :: 0 <= i < |s| && key(s[i]) == k
    requires forall x :: p(x) <==> key(x) != k
    ensures |Filter(s, p)| == |s| - 1
  {
    var i :| 0 <= i < |s| && key(s[i]) == k;
    if i == 0 {
      forall x | x in s[1..] ensures p(x) {
        var j :| 0 <= j < |s[1..]| && s[1..][j] == x;
        assert s[j + 1] == x;
      }
      FilterAll(s[1..], p);
    } else {
      assert key(s[1..][i - 1]) == k;
      FilterRemovesOne(s[1..], key, k, p);
    }
  }

  // --------------------------------------------------------------- Select

  /** f applied to every element of s, in order. */
  function MapSeq<T(!new), U(!new)>(s: seq<T>, f: T -> U): (r: seq<U>)
    ensures |r| == |s|
    ensures forall i :: 0 <= i < |s| ==> r[i] == f(s[i])
    ensures forall y :: y in r <==> exists x :: x in s && f(x) == y
  {
    var r := seq(|s|, i requires 0 <= i < |s| => f(s[i]));
    assert forall x :: x in s ==> exists i :: 0 <= i < |s| && s[i] == x;
    r
  }

  // -------------------------------------------------------------- OrderBy

  ghost predicate SortedBy<T>(s: seq<T>, key: T -> int) {
    forall i, j :: 0 <= i < j < |s| ==> key(s[i]) <= key(s[j])
  }

  /** Inserts x before the first element whose key is not smaller. */
  function InsertBy<T(!new)>(x: T, s: seq<T>, key: T -> int): (r: seq<T>)
    ensures |r| == |s| + 1
    ensures multiset(r) == multiset(s) + multiset{x}
    ensures forall y :: y in r <==> y == x || y in s
  {
    if s == [] || key(x) <= key(s[0]) then
      [x] + s
    else
      assert s == [s[0]] + s[1..];
      [s[0]] + InsertBy(x, s[1..], key)
  }

  lemma {:induction false} InsertBySorted<T(!new)>(x: T, s: seq<T>, key: T -> int)
    requires SortedBy(s, key)
    ensures SortedBy(InsertBy(x, s, key), key)
    ensures NoDups(s) && x !in s ==> NoDups(InsertBy(x, s, key))
  {
    if s != [] && key(x) > key(s[0]) {
      var t := s[1..];
      assert s == [s[0]] + t;
      assert SortedBy(t, key) by {
        forall i, j | 0 <= i < j < |t| ensures key(t[i]) <= key(t[j]) {
          assert t[i] == s[i + 1] && t[j] == s[j + 1];
        }
      }
      InsertBySorted(x, t, key);
      var r' := InsertBy(x, t, key);
      forall y | y in r' ensures key(s[0]) <= key(y) {
        if y != x {
          var k :| 0 <= k < |t| && t[k] == y;
          assert s[k + 1] == y;
        }
      }
      ConsSortedBy(s[0], r', key);
      NoDupsTail(s);
      NoDupsCons(s[0], r');
    } else {
      NoDupsCons(x, s);
      if s != [] {
        ConsSortedBy(x, s, key);
      }
    }
  }

  lemma ConsSortedBy<T(!new)>(h: T, t: seq<T>, key: T -> int)
    requires SortedBy(t, key)
    requires forall y :: y in t ==> key(h) <= key(y)
    ensures SortedBy([h] + t, key)
  {
    var s := [h] + t;
    forall i, j | 0 <= i < j < |s| ensures key(s[i]) <= key(s[j]) {
      assert s[j] == t[j - 1] && s[j] in t;
      if i > 0 {
        assert s[i] == t[i - 1];
      }
    }
  }

  lemma NoDupsTail<T(!new)>(s: seq<T>)
    requires |s| > 0
    ensures NoDups(s) ==> NoDups(s[1..]) && s[0] !in s[1..]
  {
  }

  lemma NoDupsCons<T(!new)>(h: T, t: seq<T>)
    ensures NoDups(t) && h !in t ==> NoDups([h] + t)
  {
    var s := [h] + t;
    forall i, j | 0 <= i < j < |s| && NoDups(t) && h !in t ensures s[i] != s[j] {
      if i == 0 {
        assert s[j] == t[j - 1];
      } else {
        assert s[i] == t[i - 1] && s[j] == t[j - 1];
      }
    }
  }

  /** A sort by ascending key, as LINQ's OrderBy (its stability is not stated). */
  function SortBy<T(!new)>(s: seq<T>, key: T -> int): (r: seq<T>)
    ensures SortedBy(r, key)
    ensures |r| == |s|
    ensures multiset(r) == multiset(s)
    ensures forall y :: y in r <==> y in s
    ensures NoDups(s) ==> NoDups(r)
  {
    if s == [] then []
    else
      assert s == [s[0]] + s[1..];
      var t := SortBy(s[1..], key);
      NoDupsTail(s);
      InsertBySorted(s[0], t, key);
      InsertBy(s[0], t, key)
  }

  /** A sort by descending key, as LINQ's OrderByDescending (its stability is not stated). */
  function SortByDescending<T(!new)>(s: seq<T>, key: T -> int): (r: seq<T>)
    ensures forall i, j :: 0 <= i < j < |r| ==> key(r[i]) >= key(r[j])
    ensures |r| == |s|
    ensures multiset(r) == multiset(s)
    ensures forall y :: y in r <==> y in s
    ensures NoDups(s) ==> NoDups(r)
  {
    var neg := x => -key(x);
    var r := SortBy(s, neg);
    assert forall i, j :: 0 <= i < j < |r| ==> neg(r[i]) <= neg(r[j]);
    r
  }

  // ------------------------------------------------------ ordinal strings

  /** Ordinal (code-unit) lexicographic order on strings. */
  predicate LexLe(a: string, b: string) {
    |a| == 0 || (|b| > 0 && (a[0] < b[0] || (a[0] == b[0] && LexLe(a[1..], b[1..]))))
  }

  lemma {:induction false} LexLeTotal(a: string, b: string)
    ensures LexLe(a, b) || LexLe(b, a)
  {
    if |a| > 0 && |b| > 0 && a[0] == b[0] {
      LexLeTotal(a[1..], b[1..]);
    }
  }

  lemma {:induction false} LexLeTransitive(a: string, b: string, c: string)
    requires LexLe(a, b) && LexLe(b, c)
    ensures LexLe(a, c)
  {
    if |a| > 0 && a[0] == b[0] && b[0] == c[0] {
      LexLeTransitive(a[1..], b[1..], c[1..]);
    }
  }

  ghost predicate SortedByName<T>(s: seq<T>, name: T -> string) {
    forall i, j :: 0 <= i < j < |s| ==> LexLe(name(s[i]), name(s[j]))
  }

  function InsertByName<T(!new)>(x: T, s: seq<T>, name: T -> string): (r: seq<T>)
    ensures |r| == |s| + 1
    ensures multiset(r) == multiset(s) + multiset{x}
    ensures forall y :: y in r <==> y == x || y in s
  {
    if s == [] || LexLe(name(x), name(s[0])) then
      [x] + s
    else
      assert s == [s[0]] + s[1..];
      [s[0]] + InsertByName(x, s[1..], name)
  }

  lemma {:induction false} InsertByNameSorted<T(!new)>(x: T, s: seq<T>, name: T -> string)
    requires SortedByName(s, name)
    ensures SortedByName(InsertByName(x, s, name), name)
  {
    if s == [] {
    } else if LexLe(name(x), name(s[0])) {
      forall j | 0 <= j < |s| ensures LexLe(name(x), name(s[j])) {
        if j > 0 {
          LexLeTransitive(name(x), name(s[0]), name(s[j]));
        }
      }
      ConsSortedByName(x, s, name);
    } else {
      LexLeTotal(name(x), name(s[0]));
      assert SortedByName(s[1..], name) by {
        forall i, j | 0 <= i < j < |s[1..]| ensures LexLe(name(s[1..][i]), name(s[1..][j])) {
          assert s[1..][i] == s[i + 1] && s[1..][j] == s[j + 1];
        }
      }
      InsertByNameSorted(x, s[1..], name);
      var r' := InsertByName(x, s[1..], name);
      forall y | y in r' ensures LexLe(name(s[0]), name(y)) {
        if y != x {
          var k :| 0 <= k < |s[1..]| && s[1..][k] == y;
          assert s[k + 1] == y;
        }
      }
      ConsSortedByName(s[0], r', name);
    }
  }

  lemma ConsSortedByName<T(!new)>(h: T, t: seq<T>, name: T -> string)
    requires SortedByName(t, name)
    requires forall y :: y in t ==> LexLe(name(h), name(y))
    ensures SortedByName([h] + t, name)
  {
    var s := [h] + t;
    forall i, j | 0 <= i < j < |s| ensures LexLe(name(s[i]), name(s[j])) {
      assert s[j] == t[j - 1] && s[j] in t;
      if i > 0 {
        assert s[i] == t[i - 1];
      }
    }
  }

  /** A sort by ordinal name order (its stability is not stated). */
  function SortByName<T(!new)>(s: seq<T>, name: T -> string): (r: seq<T>)
    ensures SortedByName(r, name)
    ensures |r| == |s|
    ensures multiset(r) == multiset(s)
    ensures forall y :: y in r <==> y in s
  {
    if s == [] then []
    else
      assert s == [s[0]] + s[1..];
      var t := SortByName(s[1..], name);
      InsertByNameSorted(s[0], t, name);
      InsertByName(s[0], t, name)
  }

  // ------------------------------------------------------ GroupBy / Count

  /** Occurrences of x in s. */
  function Count<T(==,!new)>(s: seq<T>, x: T): (n: nat)
    ensures n <= |s|
    ensures n > 0 <==> x in s
  {
    if s == [] then 0
    else
      assert s == s[..|s| - 1] + [s[|s| - 1]];
      Count(s[..|s| - 1], x) + (if s[|s| - 1] == x then 1 else 0)
  }

  lemma CountAppend<T(!new)>(s: seq<T>, y: T, x: T)
    ensures Count(s + [y], x) == Count(s, x) + (if y == x then 1 else 0)
  {
    assert (s + [y])[..|s|] == s;
  }

  /** The distinct elements of s in order of first occurrence (the keys of GroupBy). */
  function Distinct<T(==,!new)>(s: seq<T>): (d: seq<T>)
    ensures NoDups(d)
    ensures forall x :: x in d <==> x in s
    ensures |d| <= |s|
  {
    if s == [] then []
    else
      var d' := Distinct(s[..|s| - 1]);
      assert s == s[..|s| - 1] + [s[|s| - 1]];
      if s[|s| - 1] in d' then d' else d' + [s[|s| - 1]]
  }

  /** The keys come in order of first occurrence: every occurrence of a later key
      is preceded by an occurrence of each earlier key. */
  lemma {:induction false} DistinctFirstOccurrence<T(!new)>(s: seq<T>, i: int, j: int, q: int)
    requires 0 <= i < j < |Distinct(s)| && 0 <= q < |s| && s[q] == Distinct(s)[j]
    ensures exists p :: 0 <= p < q && s[p] == Distinct(s)[i]
    decreases |s|
  {
    var s', x := s[..|s| - 1], s[|s| - 1];
    var d', d := Distinct(s'), Distinct(s);
    assert s == s' + [x];
    if x in d' {
      assert d == d';
      var q' := q;
      if q == |s'| {
        q' :| 0 <= q' < |s'| && s'[q'] == x;
      } else {
        assert s'[q] == s[q];
      }
      DistinctFirstOccurrence(s', i, j, q');
      var p :| 0 <= p < q' && s'[p] == d'[i];
      assert s[p] == s'[p];
    } else {
      assert d == d' + [x];
      if j < |d'| {
        assert d[j] == d'[j] && d'[j] in d';
        assert q < |s'|;
        assert s'[q] == d'[j];
        DistinctFirstOccurrence(s', i, j, q);
        var p :| 0 <= p < q && s'[p] == d'[i];
        assert s[p] == s'[p];
      } else {
        assert d[i] == d'[i] && d'[i] in d';
        var p :| 0 <= p < |s'| && s'[p] == d[i];
        assert q == |s'|;
        assert s[p] == s'[p];
      }
    }
  }

  /** Each key of d paired with its number of occurrences in s. */
  function TallyOver<T(==,!new)>(d: seq<T>, s: seq<T>): (g: seq<(T, int)>)
    ensures |g| == |d|
    ensures forall i :: 0 <= i < |g| ==> g[i] == (d[i], Count(s, d[i]))
  {
    if d == [] then [] else TallyOver(d[..|d| - 1], s) + [(d[|d| - 1], Count(s, d[|d| - 1]))]
  }

  /** GroupBy followed by Count: one (key, count) pair per distinct key of s,
      in order of first occurrence; the counts add up to |s|. */
  function Tally<T(==,!new)>(s: seq<T>): (g: seq<(T, int)>)
    ensures forall i, j :: 0 <= i < j < |g| ==> g[i].0 != g[j].0
    ensures NoDups(g)
    ensures forall e :: e in g ==> e.0 in s && e.1 == Count(s, e.0) && e.1 >= 1
    ensures forall x :: x in s ==> (x, Count(s, x)) in g
  {
    var d := Distinct(s);
    var g := TallyOver(d, s);
    assert forall e :: e in g ==> exists i :: 0 <= i < |g| && g[i] == e;
    assert forall x :: x in s ==> exists i :: 0 <= i < |d| && d[i] == x;
    g
  }

  /** The groups of a tally are the distinct keys, and their counts add up to |s|. */
  lemma TallySums<T(!new)>(s: seq<T>)
    ensures |Tally(s)| == |Distinct(s)|
    ensures SumBy(Tally(s), Snd) == |s|
  {
    TallyCountsSum(s);
  }

  function Snd<T(!new)>(e: (T, int)): int { e.1 }

  // ------------------------------------------------------------------ Sum

  function SumBy<T(!new)>(s: seq<T>, f: T -> int): int {
    if s == [] then 0 else SumBy(s[..|s| - 1], f) + f(s[|s| - 1])
  }

  lemma {:induction false} SumByConcat<T(!new)>(a: seq<T>, b: seq<T>, f: T -> int)
    ensures SumBy(a + b, f) == SumBy(a, f) + SumBy(b, f)
  {
    if b == [] {
      assert a + b == a;
    } else {
      var c := a + b;
      assert c[..|c| - 1] == a + b[..|b| - 1];
      assert c[|c| - 1] == b[|b| - 1];
      SumByConcat(a, b[..|b| - 1], f);
      assert SumBy(c, f) == SumBy(c[..|c| - 1], f) + f(c[|c| - 1]);
    }
  }

  /** A sum does not depend on the order of the elements. */
  lemma {:induction false} SumByPermutation<T(!new)>(a: seq<T>, b: seq<T>, f: T -> int)
    requires multiset(a) == multiset(b)
    ensures SumBy(a, f) == SumBy(b, f)
    decreases |a|
  {
    if a != [] {
      var x := a[|a| - 1];
      assert a == a[..|a| - 1] + [x];
      assert x in multiset(b);
      var k :| 0 <= k < |b| && b[k] == x;
      assert b == b[..k] + [x] + b[k + 1..];
      var b' := b[..k] + b[k + 1..];
      assert multiset(a) == multiset(a[..|a| - 1]) + multiset{x};
      assert multiset(b) == multiset(b[..k]) + multiset{x} + multiset(b[k + 1..]);
      assert multiset(a[..|a| - 1]) == multiset(a) - multiset{x};
      assert multiset(b') == multiset(b[..k]) + multiset(b[k + 1..]);
      assert multiset(b') == multiset(b) - multiset{x};
      SumByPermutation(a[..|a| - 1], b', f);
      SumByConcat(b[..k] + [x], b[k + 1..], f);
      SumByConcat(b[..k], [x], f);
      SumByConcat(b[..k], b[k + 1..], f);
      assert SumBy([x], f) == f(x) by {
        assert [x][..0] == [];
      }
    }
  }

  /** Two sequences whose elements correspond one to one, with equal weights, have equal sums. */
  lemma {:induction false} SumByPointwise<T(!new), U(!new)>(a: seq<T>, f: T -> int, b: seq<U>, g: U -> int)
    requires |a| == |b|
    requires forall i :: 0 <= i < |a| ==> f(a[i]) == g(b[i])
    ensures SumBy(a, f) == SumBy(b, g)
  {
    if a != [] {
      SumByPointwise(a[..|a| - 1], f, b[..|b| - 1], g);
    }
  }

  lemma {:induction false} TallyOverAppend<T(!new)>(d: seq<T>, s: seq<T>, x: T)
    ensures SumBy(TallyOver(d, s + [x]), Snd) == SumBy(TallyOver(d, s), Snd) + Count(d, x)
  {
    if d != [] {
      var d' := d[..|d| - 1];
      TallyOverAppend(d', s, x);
      CountAppend(s, x, d[|d| - 1]);
      assert d == d' + [d[|d| - 1]];
      CountAppend(d', d[|d| - 1], x);
    }
  }

  lemma {:induction false} CountNoDups<T(!new)>(d: seq<T>, x: T)
    requires NoDups(d)
    ensures Count(d, x) == if x in d then 1 else 0
  {
    if d != [] {
      var d' := d[..|d| - 1];
      assert d == d' + [d[|d| - 1]];
      CountNoDups(d', x);
    }
  }

  /** The group counts of s add up to |s|. */
  lemma {:induction false} TallyCountsSum<T(!new)>(s: seq<T>)
    ensures SumBy(TallyOver(Distinct(s), s), Snd) == |s|
  {
    if s != [] {
      var s' := s[..|s| - 1];
      var x := s[|s| - 1];
      assert s == s' + [x];
      var d' := Distinct(s');
      TallyCountsSum(s');
      TallyOverAppend(d', s', x);
      CountNoDups(d', x);
      if x !in d' {
        var d := d' + [x];
        assert d[..|d| - 1] == d';
        CountAppend(s', x, x);
        assert Count(s', x) == 0;
      }
    }
  }

  /** When every weight lies in [lo, hi], the sum lies between |s| * lo and |s| * hi. */
  lemma {:induction false} SumByBounds<T(!new)>(s: seq<T>, f: T -> int, lo: int, hi: int)
    requires forall x :: x in s ==> lo <= f(x) <= hi
    ensures |s| * lo <= SumBy(s, f) <= |s| * hi
  {
    if s != [] {
      var s' := s[..|s| - 1];
      assert forall x :: x in s' ==> x in s;
      SumByBounds(s', f, lo, hi);
      var x := s[|s| - 1];
      assert x in s;
      var n := |s'|;
      assert |s| * lo == n * lo + lo && |s| * hi == n * hi + hi;
      assert SumBy(s, f) == SumBy(s', f) + f(x);
    }
  }
}
