/** The ranking in `get_graph_summary`: the companies in node order with their
    degree, sorted by `list.sort(key=degree, reverse=True)`, which is stable,
    and cut to the first five. */
module Summary {
  import opened Values
  import opened MultiGraph

  /** One `(name, degree)` pair of the ranking. */
  datatype Ranked = Ranked(name: string, degree: nat)

  /** The names of a ranking, in order. */
  function NamesOf(s: seq<Ranked>): (r: seq<string>)
    ensures |r| == |s| && forall k :: 0 <= k < |s| ==> r[k] == s[k].name
  {
    seq(|s|, k requires 0 <= k < |s| => s[k].name)
  }

  /** `[(n, G.degree(n)) for n in ns if G.nodes[n].get('entity_type') == 'company']` */
  function CompanyDegrees(g: MultiDiGraph, ns: seq<string>): (r: seq<Ranked>)
    ensures |r| <= |ns|
    ensures forall k :: 0 <= k < |r| ==> IsKind(g, r[k].name, "company") && r[k].degree == Degree(g, r[k].name)
    ensures forall n :: n in NamesOf(r) <==> n in ns && IsKind(g, n, "company")
    ensures Distinct(ns) ==> Distinct(NamesOf(r))
  {
    if ns == [] then []
    else
      var init := CompanyDegrees(g, ns[..|ns| - 1]);
      var n := ns[|ns| - 1];
      assert forall x :: x in ns <==> x in ns[..|ns| - 1] || x == n;
      if IsKind(g, n, "company") then
        var r := init + [Ranked(n, Degree(g, n))];
        assert NamesOf(r) == NamesOf(init) + [n];
        assert Distinct(ns) ==> n !in ns[..|ns| - 1];
        r
      else init
  }

  /** Non-increasing in degree. */
  predicate SortedDesc(s: seq<Ranked>) {
    forall i, j :: 0 <= i < j < |s| ==> s[i].degree >= s[j].degree
  }

  /** Inserts `x` after every entry whose degree is at least `x.degree`,
      searching from the end: the step of a stable descending sort. */
  function Insert(x: Ranked, s: seq<Ranked>): (r: seq<Ranked>)
    ensures |r| == |s| + 1
  {
    if s == [] then [x]
    else if s[|s| - 1].degree >= x.degree then s + [x]
    else Insert(x, s[..|s| - 1]) + [s[|s| - 1]]
  }

  /** Inserting adds exactly `x`. */
  lemma {:induction false} InsertPermutation(x: Ranked, s: seq<Ranked>)
    ensures multiset(Insert(x, s)) == multiset(s) + multiset{x}
    decreases |s|
  {
    if s != [] && s[|s| - 1].degree < x.degree {
      var init := s[..|s| - 1];
      InsertPermutation(x, init);
      InitLast(s);
    }
  }

  /** The stable descending sort, as insertion of each entry in turn. */
  function SortDesc(s: seq<Ranked>): (r: seq<Ranked>)
  {
    if s == [] then [] else Insert(s[|s| - 1], SortDesc(s[..|s| - 1]))
  }

  /** The entries of degree `d`, in order. */
  function WithDegree(s: seq<Ranked>, d: nat): (r: seq<Ranked>)
    ensures forall x :: x in r <==> x in s && x.degree == d
  {
    if s == [] then []
    else
      var init := WithDegree(s[..|s| - 1], d);
      assert forall x :: x in s <==> x in s[..|s| - 1] || x == s[|s| - 1];
      if s[|s| - 1].degree == d then init + [s[|s| - 1]] else init
  }

  /** Appending an entry no higher than every entry keeps the order. */
  lemma SortedSnoc(s: seq<Ranked>, y: Ranked)
    requires SortedDesc(s)
    requires forall i :: 0 <= i < |s| ==> s[i].degree >= y.degree
    ensures SortedDesc(s + [y])
  {
    forall i, j | 0 <= i < j < |s + [y]| ensures (s + [y])[i].degree >= (s + [y])[j].degree {
      if j < |s| { assert (s + [y])[i] == s[i] && (s + [y])[j] == s[j]; }
    }
  }

  lemma {:induction false} InsertSorted(x: Ranked, s: seq<Ranked>)
    requires SortedDesc(s)
    ensures SortedDesc(Insert(x, s))
    decreases |s|
  {
    if s == [] {
    } else if s[|s| - 1].degree >= x.degree {
      SortedSnoc(s, x);
    } else {
      var init := s[..|s| - 1];
      var last := s[|s| - 1];
      assert SortedDesc(init);
      InsertSorted(x, init);
      var r := Insert(x, init);
      InsertPermutation(x, init);
      assert Insert(x, s) == r + [last];
      forall i | 0 <= i < |r| ensures r[i].degree >= last.degree {
        var y := r[i];
        assert y in multiset(r);
        assert y in multiset(init) || y == x;
        if y != x {
          assert y in init;
          var k :| 0 <= k < |init| && init[k] == y;
          assert s[k] == y;
        }
      }
      SortedSnoc(r, last);
    }
  }

  lemma {:induction false} SortDescSorted(s: seq<Ranked>)
    ensures SortedDesc(SortDesc(s))
    decreases |s|
  {
    if s != [] {
      SortDescSorted(s[..|s| - 1]);
      InsertSorted(s[|s| - 1], SortDesc(s[..|s| - 1]));
    }
  }

  /** The sort keeps every entry, as many times as it occurs. */
  lemma {:induction false} SortDescPermutation(s: seq<Ranked>)
    ensures multiset(SortDesc(s)) == multiset(s)
    decreases |s|
  {
    if s != [] {
      var init := s[..|s| - 1];
      SortDescPermutation(init);
      InsertPermutation(s[|s| - 1], SortDesc(init));
      InitLast(s);
    }
  }

  lemma {:induction false} WithDegreeAppend(a: seq<Ranked>, b: seq<Ranked>, d: nat)
    ensures WithDegree(a + b, d) == WithDegree(a, d) + WithDegree(b, d)
    decreases |b|
  {
    if b == [] {
      assert a + b == a;
    } else {
      var init := b[..|b| - 1];
      assert (a + b)[..|a + b| - 1] == a + init;
      WithDegreeAppend(a, init, d);
    }
  }

  lemma {:induction false} InsertWithDegree(x: Ranked, s: seq<Ranked>, d: nat)
    ensures WithDegree(Insert(x, s), d) == if x.degree == d then WithDegree(s, d) + [x] else WithDegree(s, d)
    decreases |s|
  {
    if s == [] {
      assert WithDegree([x], d) == WithDegree([], d) + (if x.degree == d then [x] else []);
    } else if s[|s| - 1].degree >= x.degree {
      WithDegreeAppend(s, [x], d);
      assert WithDegree([x], d) == WithDegree([], d) + (if x.degree == d then [x] else []);
    } else {
      var init := s[..|s| - 1];
      var last := s[|s| - 1];
      InitLast(s);
      InsertWithDegree(x, init, d);
      WithDegreeAppend(Insert(x, init), [last], d);
      WithDegreeAppend(init, [last], d);
      assert WithDegree([last], d) == WithDegree([], d) + (if last.degree == d then [last] else []);
    }
  }

  /** The sort is stable: the entries of any one degree keep their relative
      order. */
  lemma {:induction false} SortDescStable(s: seq<Ranked>, d: nat)
    ensures WithDegree(SortDesc(s), d) == WithDegree(s, d)
    decreases |s|
  {
    if s != [] {
      var init := s[..|s| - 1];
      var last := s[|s| - 1];
      SortDescStable(init, d);
      InsertWithDegree(last, SortDesc(init), d);
    }
  }

  /** `companies[:5]` after the sort. */
  function TopCompanies(g: MultiDiGraph): (r: seq<Ranked>)
  {
    var sorted := SortDesc(CompanyDegrees(g, g.order));
    if |sorted| <= 5 then sorted else sorted[..5]
  }

  /** The top list holds the five companies of highest degree (all of them
      when there are fewer), best first, and no company left out has a higher
      degree than any company kept; among equal degrees, node order decides. */
  lemma TopCompaniesBest(g: MultiDiGraph)
    ensures var all := CompanyDegrees(g, g.order);
      var sorted := SortDesc(all);
      var r := TopCompanies(g);
      && |r| == (if |all| < 5 then |all| else 5)
      && r == sorted[..|r|]
      && SortedDesc(r)
      && multiset(sorted) == multiset(all)
      && (forall i, j :: 0 <= i < |r| <= j < |sorted| ==> r[i].degree >= sorted[j].degree)
      && (forall d: nat :: WithDegree(sorted, d) == WithDegree(all, d))
  {
    var all := CompanyDegrees(g, g.order);
    SortDescSorted(all);
    SortDescPermutation(all);
    var sorted := SortDesc(all);
    assert |sorted| == |all| by {
      assert |multiset(sorted)| == |multiset(all)|;
    }
    forall d: nat ensures WithDegree(sorted, d) == WithDegree(all, d) {
      SortDescStable(all, d);
    }
  }

  /** Where `Insert` puts `x`: after the last entry of degree at least
      `x.degree`, which is `s[j - 1]` when every later entry is lower. */
  lemma {:induction false} InsertAt(x: Ranked, s: seq<Ranked>, j: nat)
    requires j <= |s|
    requires j == 0 || s[j - 1].degree >= x.degree
    requires forall k :: j <= k < |s| ==> s[k].degree < x.degree
    ensures Insert(x, s) == s[..j] + [x] + s[j..]
    decreases |s|
  {
    if |s| == j {
      assert s[..j] == s && s[j..] == [];
    } else {
      var init := s[..|s| - 1];
      var last := s[|s| - 1];
      assert Insert(x, s) == Insert(x, init) + [last];
      InsertAt(x, init, j);
      assert init[..j] == s[..j];
      assert init[j..] + [last] == s[j..];
      assert s[..j] + [x] + init[j..] + [last] == s[..j] + [x] + (init[j..] + [last]);
    }
  }

  /** One pass of the insertion sort: `a[i]` moves left past every entry of
      lower degree in the sorted prefix `a[..i]`. */
  method InsertLast(a: array<Ranked>, i: nat)
    requires i < a.Length
    modifies a
    ensures a[..i + 1] == Insert(old(a[i]), old(a[..i]))
    ensures forall k :: i < k < a.Length ==> a[k] == old(a[k])
  {
    ghost var sorted := a[..i];
    var key := a[i];
    var j := i;
    while j > 0 && a[j - 1].degree < key.degree
      invariant 0 <= j <= i
      invariant forall k :: 0 <= k < j ==> a[k] == sorted[k]
      invariant forall k :: j < k <= i ==> a[k] == sorted[k - 1]
      invariant forall k :: j <= k < i ==> sorted[k].degree < key.degree
      invariant forall k :: i < k < a.Length ==> a[k] == old(a[k])
    {
      assert a[j - 1] == sorted[j - 1];
      a[j] := a[j - 1];
      j := j - 1;
    }
    InsertAt(key, sorted, j);
    a[j] := key;
    ghost var inserted := sorted[..j] + [key] + sorted[j..];
    forall k | 0 <= k <= i ensures a[k] == inserted[k] {
      if k < j {
        assert inserted[k] == sorted[k];
      } else if j < k {
        assert inserted[k] == sorted[k - 1];
      }
    }
    assert a[..i + 1] == inserted;
  }

  /** `companies.sort(key=lambda x: x[1], reverse=True)` in place, as an
      insertion sort that shifts lower-degree entries right. */
  method SortByDegree(a: array<Ranked>)
    modifies a
    ensures a[..] == SortDesc(old(a[..]))
  {
    var i := 0;
    while i < a.Length
      invariant 0 <= i <= a.Length
      invariant a[..i] == SortDesc(old(a[..])[..i])
      invariant forall k :: i <= k < a.Length ==> a[k] == old(a[k])
    {
      InsertLast(a, i);
      assert old(a[..])[..i + 1] == old(a[..])[..i] + [old(a[i])];
      i := i + 1;
    }
    assert a[..] == a[..a.Length];
    assert old(a[..])[..a.Length] == old(a[..]);
  }
}
