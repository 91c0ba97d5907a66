/** Small facts about sequences and maps shared by the other modules. */
module Collections {

  datatype Option<+T> = None | Some(value: T)

  ghost predicate NoDup<T>(s: seq<T>) {
    forall i, j :: 0 <= i < j < |s| ==> s[i] != s[j]
  }

  function Elements<T(==)>(s: seq<T>): set<T> {
    set x | x in s
  }

  /** The last `n` elements, or all of them. */
  function LastN<T>(s: seq<T>, n: nat): seq<T> {
    if |s| <= n then s else s[|s| - n..]
  }

  /** `s` without the elements equal to `x`, in order. */
  function Without<T(==)>(s: seq<T>, x: T): seq<T> {
    if s == [] then []
    else if s[|s| - 1] == x then Without(s[..|s| - 1], x)
    else Without(s[..|s| - 1], x) + [s[|s| - 1]]
  }

  lemma {:induction false} WithoutElements<T>(s: seq<T>, x: T)
    ensures forall y :: y in Without(s, x) <==> y in s && y != x
    ensures |Without(s, x)| <= |s|
    ensures x !in s ==> Without(s, x) == s
  {
    if s != [] {
      WithoutElements(s[..|s| - 1], x);
      assert s == s[..|s| - 1] + [s[|s| - 1]];
    }
  }

  lemma {:induction false} WithoutKeepsNoDup<T>(s: seq<T>, x: T)
    requires NoDup(s)
    ensures NoDup(Without(s, x))
  {
    if s != [] {
      var init := s[..|s| - 1];
      WithoutKeepsNoDup(init, x);
      WithoutElements(init, x);
      if s[|s| - 1] != x {
        forall i, j | 0 <= i < j < |Without(s, x)|
          ensures Without(s, x)[i] != Without(s, x)[j]
        {
          if j == |Without(init, x)| {
            assert Without(init, x)[i] in Without(init, x);
          }
        }
      }
    }
  }

  /** Trimming after every append keeps the end of the full log. */
  lemma LastNOfAppend<T>(log: seq<T>, x: T, n: nat)
    requires n > 0
    ensures LastN(LastN(log, n) + [x], n) == LastN(log + [x], n)
  {
  }

  /** The sum of the values of a map. */
  ghost function Total<K(!new)>(m: map<K, int>): int {
    if m == map[] then 0
    else
      var k :| k in m;
      m[k] + Total(m - {k})
  }

  lemma {:induction false} TotalAt<K(!new)>(m: map<K, int>, k: K)
    requires k in m
    ensures Total(m) == m[k] + Total(m - {k})
  {
    var j :| j in m && Total(m) == m[j] + Total(m - {j});
    if j != k {
      TotalAt(m - {j}, k);
      TotalAt(m - {k}, j);
      assert m - {j} - {k} == m - {k} - {j};
    }
  }

  lemma TotalUpdated<K(!new)>(m: map<K, int>, k: K, v: int)
    ensures Total(m[k := v]) == Total(m - {k}) + v
    ensures k !in m ==> Total(m[k := v]) == Total(m) + v
    ensures k in m ==> Total(m[k := v]) == Total(m) - m[k] + v
  {
    TotalAt(m[k := v], k);
    assert m[k := v] - {k} == m - {k};
    if k in m {
      TotalAt(m, k);
    } else {
      assert m - {k} == m;
    }
  }

  /** The last element of one sequence, found in a permutation of it. */
  lemma LastElsewhere<T>(one: seq<T>, two: seq<T>) returns (pre: seq<T>, post: seq<T>)
    requires one != [] && multiset(one) == multiset(two)
    ensures two == pre + [one[|one| - 1]] + post
    ensures multiset(one[..|one| - 1]) == multiset(pre + post)
  {
    var init, e := one[..|one| - 1], one[|one| - 1];
    assert one == init + [e];
    assert e in multiset(two);
    var i :| 0 <= i < |two| && two[i] == e;
    pre, post := two[..i], two[i + 1..];
    assert two == pre + [e] + post;
    OneMore(init, e, []);
    OneMore(pre, e, post);
    assert init + [e] + [] == one && init + [] == init;
    var m := multiset(init);
    assert m + multiset{e} - multiset{e} == m;
  }

  lemma OneMore<T>(pre: seq<T>, e: T, post: seq<T>)
    ensures multiset(pre + [e] + post) == multiset(pre + post) + multiset{e}
    ensures multiset(pre + post) == multiset(pre + [e] + post) - multiset{e}
  {
    assert multiset(pre + [e] + post) == multiset(pre) + multiset{e} + multiset(post);
    assert multiset(pre + post) == multiset(pre) + multiset(post);
  }

  lemma RemovedSize<K, V>(m: map<K, V>, k: K)
    requires k in m
    ensures |m| == |m - {k}| + 1
  {
    assert (m - {k}).Keys == m.Keys - {k};
    assert |m| == |m.Keys| && |m - {k}| == |(m - {k}).Keys|;
  }
}
