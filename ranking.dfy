/** The "best employees" card: the employees array is sorted in place by
    descending completion rate with a stable comparison sort, and the first
    three are shown. */
module Ranking {
  import opened Domain

  /** The four employees the page starts with. */
  const SeedEmployees: seq<Employee> := [
    Employee(1, "Алексей Иванов", "Senior Developer", 12, 85, ""),
    Employee(2, "Мария Петрова", "UI/UX Designer", 8, 92, ""),
    Employee(3, "Дмитрий Смирнов", "Frontend Developer", 15, 78, ""),
    Employee(4, "Елена Козлова", "QA Engineer", 10, 88, "")
  ]

  /** Non-increasing completion rate from left to right. */
  predicate SortedDesc(s: seq<Employee>) {
    forall i, j :: 0 <= i < j < |s| ==> s[i].completionRate >= s[j].completionRate
  }

  /** The employees whose completion rate is `v`, in their order in `s`. */
  function WithRate(s: seq<Employee>, v: int): (r: seq<Employee>)
    ensures forall x :: x in r ==> x in s && x.completionRate == v
  {
    if s == [] then []
    else if s[0].completionRate == v then [s[0]] + WithRate(s[1..], v)
    else WithRate(s[1..], v)
  }

  /** `t` keeps every group of equal-rate employees of `s`, each group in
      its original order: what a stable sort by rate leaves unchanged. */
  ghost predicate SameTies(s: seq<Employee>, t: seq<Employee>) {
    forall v :: WithRate(s, v) == WithRate(t, v)
  }

  lemma {:induction false} WithRateConcat(a: seq<Employee>, b: seq<Employee>, v: int)
    ensures WithRate(a + b, v) == WithRate(a, v) + WithRate(b, v)
    decreases |a|
  {
    if a == [] {
      assert a + b == b;
    } else {
      assert (a + b)[1..] == a[1..] + b;
      WithRateConcat(a[1..], b, v);
    }
  }

  lemma {:induction false} WithRateHas(s: seq<Employee>, x: Employee)
    requires x in s
    ensures x in WithRate(s, x.completionRate)
    decreases |s|
  {
    if s[0] != x {
      WithRateHas(s[1..], x);
    }
  }

  /** Each employee occurs in `WithRate(s, v)` as often as in `s` when its
      rate is `v`, and not at all otherwise. */
  lemma {:induction false} WithRateMultiplicity(s: seq<Employee>, v: int, x: Employee)
    ensures multiset(WithRate(s, v))[x] == if x.completionRate == v then multiset(s)[x] else 0
    decreases |s|
  {
    if s != [] {
      WithRateMultiplicity(s[1..], v, x);
      assert s == [s[0]] + s[1..];
    }
  }

  /** Keeping every tie group makes `t` a permutation of `s`. */
  lemma SameTiesPermutation(s: seq<Employee>, t: seq<Employee>)
    requires SameTies(s, t)
    ensures multiset(s) == multiset(t)
  {
    forall x ensures multiset(s)[x] == multiset(t)[x] {
      WithRateMultiplicity(s, x.completionRate, x);
      WithRateMultiplicity(t, x.completionRate, x);
      assert WithRate(s, x.completionRate) == WithRate(t, x.completionRate);
    }
  }

  /** A sorted arrangement that keeps every tie group is unique: a stable
      descending sort has exactly one possible result. */
  lemma {:induction false} StableSortUnique(a: seq<Employee>, b: seq<Employee>)
    requires SortedDesc(a) && SortedDesc(b) && SameTies(a, b)
    ensures a == b
    decreases |a|
  {
    if a == [] {
      if b != [] {
        WithRateHas(b, b[0]);
      }
    } else if b == [] {
      WithRateHas(a, a[0]);
    } else {
      var m, n := a[0].completionRate, b[0].completionRate;
      WithRateHas(a, a[0]);
      WithRateHas(b, b[0]);
      assert a[0] in WithRate(b, m);
      assert b[0] in WithRate(a, n);
      assert m == n by {
        assert a[0] in b;
        assert b[0] in a;
      }
      assert WithRate(a, m) == [a[0]] + WithRate(a[1..], m);
      assert WithRate(b, m) == [b[0]] + WithRate(b[1..], m);
      assert a[0] == b[0];
      forall v ensures WithRate(a[1..], v) == WithRate(b[1..], v) {
        if v == m {
          assert WithRate(a[1..], v) == WithRate(a, v)[1..];
          assert WithRate(b[1..], v) == WithRate(b, v)[1..];
        } else {
          assert WithRate(a, v) == WithRate(a[1..], v);
          assert WithRate(b, v) == WithRate(b[1..], v);
        }
      }
      StableSortUnique(a[1..], b[1..]);
      assert a == [a[0]] + a[1..];
      assert b == [b[0]] + b[1..];
    }
  }

  /** Reference definition of the stable descending sort: insertion of
      each employee, front to back of the remaining input, before the
      first one with a rate not above its own. */
  function Insert(x: Employee, s: seq<Employee>): (r: seq<Employee>)
    ensures |r| == |s| + 1
  {
    if s == [] || x.completionRate >= s[0].completionRate then [x] + s
    else [s[0]] + Insert(x, s[1..])
  }

  function SortDesc(s: seq<Employee>): (r: seq<Employee>)
    ensures |r| == |s|
  {
    if s == [] then [] else Insert(s[0], SortDesc(s[1..]))
  }

  lemma {:induction false} InsertMultiset(x: Employee, s: seq<Employee>)
    ensures multiset(Insert(x, s)) == multiset([x] + s)
    decreases |s|
  {
    if s != [] && x.completionRate < s[0].completionRate {
      InsertMultiset(x, s[1..]);
      assert s == [s[0]] + s[1..];
    }
  }

  /** Inserting under a bound that the employee and the list respect
      keeps every rate under the bound. */
  lemma {:induction false} InsertBounded(x: Employee, s: seq<Employee>, b: int)
    requires x.completionRate <= b
    requires forall j :: 0 <= j < |s| ==> s[j].completionRate <= b
    ensures forall j :: 0 <= j < |Insert(x, s)| ==> Insert(x, s)[j].completionRate <= b
    decreases |s|
  {
    if s != [] && x.completionRate < s[0].completionRate {
      InsertBounded(x, s[1..], b);
    }
  }

  lemma ConsSorted(h: Employee, t: seq<Employee>)
    requires SortedDesc(t)
    requires forall j :: 0 <= j < |t| ==> t[j].completionRate <= h.completionRate
    ensures SortedDesc([h] + t)
  {
    var r := [h] + t;
    forall i, j | 0 <= i < j < |r| ensures r[i].completionRate >= r[j].completionRate {
      assert r[j] == t[j - 1];
      if i > 0 {
        assert r[i] == t[i - 1];
      }
    }
  }

  lemma {:induction false} InsertSorted(x: Employee, s: seq<Employee>)
    requires SortedDesc(s)
    ensures SortedDesc(Insert(x, s))
    decreases |s|
  {
    if s == [] || x.completionRate >= s[0].completionRate {
      ConsSorted(x, s);
    } else {
      InsertSorted(x, s[1..]);
      InsertBounded(x, s[1..], s[0].completionRate);
      ConsSorted(s[0], Insert(x, s[1..]));
    }
  }

  lemma {:induction false} InsertTies(x: Employee, s: seq<Employee>, v: int)
    ensures WithRate(Insert(x, s), v) == WithRate([x] + s, v)
    decreases |s|
  {
    if s != [] && x.completionRate < s[0].completionRate {
      InsertTies(x, s[1..], v);
      assert ([x] + s)[1..] == s;
      assert ([x] + s[1..])[1..] == s[1..];
      assert ([s[0]] + Insert(x, s[1..]))[1..] == Insert(x, s[1..]);
    }
  }

  /** The reference sort is sorted and keeps every tie group. */
  lemma {:induction false} SortDescCorrect(s: seq<Employee>)
    ensures SortedDesc(SortDesc(s))
    ensures SameTies(SortDesc(s), s)
    ensures |SortDesc(s)| == |s|
    decreases |s|
  {
    if s != [] {
      SortDescCorrect(s[1..]);
      InsertSorted(s[0], SortDesc(s[1..]));
      InsertMultiset(s[0], SortDesc(s[1..]));
      assert |multiset(SortDesc(s))| == |SortDesc(s[1..])| + 1;
      forall v ensures WithRate(SortDesc(s), v) == WithRate(s, v) {
        InsertTies(s[0], SortDesc(s[1..]), v);
        assert s == [s[0]] + s[1..];
        WithRateConcat([s[0]], SortDesc(s[1..]), v);
        WithRateConcat([s[0]], s[1..], v);
      }
    }
  }

  /** Any sorted, tie-keeping rearrangement of `s` is the reference sort. */
  lemma IsSortDesc(s: seq<Employee>, t: seq<Employee>)
    requires SortedDesc(t) && SameTies(t, s)
    ensures t == SortDesc(s)
  {
    SortDescCorrect(s);
    StableSortUnique(t, SortDesc(s));
  }

  /** Sorting an already sorted list changes nothing, so re-sorting the
      array on every render is harmless. */
  lemma SortDescIdempotent(s: seq<Employee>)
    ensures SortDesc(SortDesc(s)) == SortDesc(s)
  {
    SortDescCorrect(s);
    SortDescCorrect(SortDesc(s));
    StableSortUnique(SortDesc(SortDesc(s)), SortDesc(s));
  }

  /** Swapping two neighbours of different rates keeps every tie group. */
  lemma SwapKeepsTies(s: seq<Employee>, j: nat)
    requires 0 < j < |s| && s[j - 1].completionRate != s[j].completionRate
    ensures SameTies(s[j - 1 := s[j]][j := s[j - 1]], s)
  {
    var t := s[j - 1 := s[j]][j := s[j - 1]];
    var pre, post := s[..j - 1], s[j + 1..];
    assert s == pre + [s[j - 1], s[j]] + post;
    assert t == pre + [s[j], s[j - 1]] + post;
    forall v ensures WithRate(t, v) == WithRate(s, v) {
      WithRateConcat(pre + [s[j - 1], s[j]], post, v);
      WithRateConcat(pre, [s[j - 1], s[j]], v);
      WithRateConcat(pre + [s[j], s[j - 1]], post, v);
      WithRateConcat(pre, [s[j], s[j - 1]], v);
      assert [s[j - 1], s[j]][1..] == [s[j]];
      assert [s[j], s[j - 1]][1..] == [s[j - 1]];
    }
  }

  lemma SameTiesTrans(s: seq<Employee>, t: seq<Employee>, u: seq<Employee>)
    requires SameTies(s, t) && SameTies(t, u)
    ensures SameTies(s, u)
  {
    forall v ensures WithRate(s, v) == WithRate(u, v) {
      assert WithRate(s, v) == WithRate(t, v);
    }
  }

  /** One pass of insertion sort: the employee at index `i` moves left by
      adjacent swaps past every neighbour with a strictly lower rate, so
      it stops behind the first one with an equal or higher rate. */
  method InsertAt(a: array<Employee>, i: nat)
    requires i < a.Length
    requires forall p, q :: 0 <= p < q < i ==> a[p].completionRate >= a[q].completionRate
    modifies a
    ensures forall p, q :: 0 <= p < q <= i ==> a[p].completionRate >= a[q].completionRate
    ensures SameTies(a[..], old(a[..]))
  {
    var j := i;
    while j > 0 && a[j - 1].completionRate < a[j].completionRate
      invariant 0 <= j <= i
      invariant forall p, q :: 0 <= p < q <= i && p != j && q != j ==>
        a[p].completionRate >= a[q].completionRate
      invariant forall q :: j < q <= i ==> a[j].completionRate > a[q].completionRate
      invariant SameTies(a[..], old(a[..]))
    {
      ghost var before := a[..];
      SwapKeepsTies(before, j);
      a[j - 1], a[j] := a[j], a[j - 1];
      assert a[..] == before[j - 1 := before[j]][j := before[j - 1]];
      SameTiesTrans(a[..], before, old(a[..]));
      j := j - 1;
    }
  }

  /** The page's `employees.sort((a, b) => b.completionRate - a.completionRate)`:
      a stable in-place sort of the array, here insertion sort by adjacent
      swaps, which exchanges only neighbours whose rates differ. */
  method SortByCompletionRate(a: array<Employee>)
    modifies a
    ensures SortedDesc(a[..])
    ensures SameTies(a[..], old(a[..]))
    ensures a[..] == SortDesc(old(a[..]))
  {
    var i := 0;
    while i < a.Length
      invariant 0 <= i <= a.Length
      invariant forall p, q :: 0 <= p < q < i ==> a[p].completionRate >= a[q].completionRate
      invariant SameTies(a[..], old(a[..]))
    {
      ghost var before := a[..];
      InsertAt(a, i);
      SameTiesTrans(a[..], before, old(a[..]));
      i := i + 1;
    }
    IsSortDesc(old(a[..]), a[..]);
  }

  /** Cutting a sorted list after k elements: the prefix is sorted, and
      nobody cut off has a better rate than anybody kept. */
  lemma SortedSplit(r: seq<Employee>, k: nat)
    requires SortedDesc(r) && k <= |r|
    ensures SortedDesc(r[..k])
    ensures multiset(r[..k]) <= multiset(r)
    ensures forall x, y :: x in multiset(r) - multiset(r[..k]) && y in r[..k] ==>
      x.completionRate <= y.completionRate
  {
    var top, rest := r[..k], r[k..];
    assert r == top + rest;
    assert multiset(r) - multiset(top) == multiset(rest);
    forall x: Employee, y: Employee | x in rest && y in top ensures x.completionRate <= y.completionRate {
      TailBelowHead(r, k, x, y);
    }
  }

  /** In a sorted list, anyone after position k rates no higher than anyone before it. */
  lemma TailBelowHead(r: seq<Employee>, k: nat, x: Employee, y: Employee)
    requires SortedDesc(r) && k <= |r|
    requires x in r[k..] && y in r[..k]
    ensures x.completionRate <= y.completionRate
  {
    var q :| 0 <= q < |r[k..]| && r[k..][q] == x;
    var p :| 0 <= p < |r[..k]| && r[..k][p] == y;
    assert r[p] == y && r[k + q] == x;
  }

  /** The employees the "best employees" card shows: at most three, best
      rate first, drawn from the roster, and no one left out has a better
      rate than anyone shown. */
  lemma TopEmployeesCorrect(s: seq<Employee>)
    ensures var top := FirstThree(SortDesc(s));
      |top| == (if |s| < 3 then |s| else 3) &&
      SortedDesc(top) &&
      multiset(top) <= multiset(s) &&
      forall x, y :: x in multiset(s) - multiset(top) && y in top ==>
        x.completionRate <= y.completionRate
  {
    var r := SortDesc(s);
    SortDescCorrect(s);
    SameTiesPermutation(r, s);
    var k := if |s| < 3 then |s| else 3;
    assert FirstThree(r) == r[..k];
    SortedSplit(r, k);
  }

  /** On the seed roster the card shows Petrova (92), Kozlova (88) and
      Ivanov (85), in that order, and the whole roster is reordered to
      Petrova, Kozlova, Ivanov, Smirnov. */
  lemma SeedTopEmployees()
    ensures SortDesc(SeedEmployees) == [SeedEmployees[1], SeedEmployees[3], SeedEmployees[0], SeedEmployees[2]]
    ensures FirstThree(SortDesc(SeedEmployees)) == [SeedEmployees[1], SeedEmployees[3], SeedEmployees[0]]
  {
    var s := SeedEmployees;
    var e0, e1, e2, e3 := s[0], s[1], s[2], s[3];
    assert s[3..] == [e3] && s[3..][1..] == [];
    assert SortDesc(s[3..]) == [e3];
    assert s[2..] == [e2] + s[3..];
    assert SortDesc(s[2..]) == Insert(e2, [e3]) == [e3, e2];
    assert s[1..] == [e1] + s[2..];
    assert SortDesc(s[1..]) == Insert(e1, [e3, e2]) == [e1, e3, e2];
    assert [e3, e2][1..] == [e2];
    assert Insert(e0, [e3, e2]) == [e3, e0, e2];
    assert [e1, e3, e2][1..] == [e3, e2];
    assert SortDesc(s) == Insert(e0, [e1, e3, e2]) == [e1, e3, e0, e2];
  }
}
