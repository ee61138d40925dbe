/** Small facts about sets and finite maps shared by the modules. */
module Collections {

  datatype Option<T> = None | Some(value: T)

  function Max(a: int, b: int): int {
    if a < b then b else a
  }

  lemma SomeElement<T>(s: set<T>) returns (x: T)
    requires s != {}
    ensures x in s
  {
    x :| x in s;
  }

  lemma SubsetSize<T>(a: set<T>, b: set<T>)
    requires a <= b
    ensures |a| <= |b|
  {
    assert b == a + (b - a);
  }

  lemma ProperSubsetSize<T>(a: set<T>, b: set<T>, x: T)
    requires a <= b - {x} && x in b
    ensures |a| < |b|
  {
    assert b == a + (b - a) && x in b - a;
    assert |b - a| > 0;
  }

  predicate IsLeast(keys: set<int>, l: int) {
    l in keys && forall k :: k in keys ==> l <= k
  }

  lemma {:induction false} LeastExists(keys: set<int>) returns (l: int)
    requires keys != {}
    ensures IsLeast(keys, l)
    decreases |keys|
  {
    var first := SomeElement(keys);
    var others := keys - {first};
    assert forall k :: k in keys ==> k == first || k in others;
    l := first;
    if others != {} {
      var rest := LeastExists(others);
      l := if rest < first then rest else first;
    }
  }

  method Least(keys: set<int>) returns (l: int)
    requires keys != {}
    ensures IsLeast(keys, l)
  {
    ghost var first := SomeElement(keys);
    l :| l in keys;
    var rest := keys - {l};
    while rest != {}
      invariant l in keys && rest <= keys
      invariant forall k :: k in keys && k !in rest ==> l <= k
    {
      ghost var next := SomeElement(rest);
      var k :| k in rest;
      rest := rest - {k};
      if k < l {
        l := k;
      }
    }
  }

  // The elements in increasing order, as iterating over an ordered map visits them.
  ghost predicate Ascending(s: seq<int>) {
    forall i, j :: 0 <= i < j < |s| ==> s[i] < s[j]
  }

  method Sorted(keys: set<int>) returns (s: seq<int>)
    ensures Ascending(s)
    ensures forall i :: 0 <= i < |s| ==> s[i] in keys
    ensures forall k :: k in keys ==> exists i :: 0 <= i < |s| && s[i] == k
  {
    s := [];
    var rest := keys;
    while rest != {}
      invariant rest <= keys && Ascending(s)
      invariant forall i :: 0 <= i < |s| ==> s[i] in keys
      invariant forall k :: k in keys && k !in rest ==> exists i :: 0 <= i < |s| && s[i] == k
      invariant forall i, k :: 0 <= i < |s| && k in rest ==> s[i] < k
    {
      var l := Least(rest);
      ghost var before := s;
      s := s + [l];
      forall k | k in keys && k !in rest - {l}
        ensures exists i :: 0 <= i < |s| && s[i] == k
      {
        if k == l {
          assert s[|before|] == l;
        } else {
          var i :| 0 <= i < |before| && before[i] == k;
          assert s[i] == k;
        }
      }
      rest := rest - {l};
    }
  }

  // ----- Sums over finite maps -----

  ghost function Sum<K>(m: map<K, int>): int
    decreases |m|
  {
    if m == map[] then 0
    else
      var k :| k in m;
      MapWithout(m, k);
      m[k] + Sum(m - {k})
  }

  lemma MapWithout<K, V>(m: map<K, V>, k: K)
    requires k in m
    ensures |m - {k}| == |m| - 1
  {
    assert (m - {k}).Keys == m.Keys - {k};
    assert |m.Keys - {k}| == |m.Keys| - 1;
  }

  lemma {:induction false} SumNotNegative<K>(m: map<K, int>)
    requires forall k :: k in m ==> 0 <= m[k]
    ensures 0 <= Sum(m)
    decreases |m|
  {
    if m != map[] {
      var k :| k in m && Sum(m) == m[k] + Sum(m - {k});
      MapWithout(m, k);
      SumNotNegative(m - {k});
    }
  }

  // Any key can be taken out first.
  lemma {:induction false} SumWithout<K>(m: map<K, int>, k: K)
    requires k in m
    ensures Sum(m) == m[k] + Sum(m - {k})
    decreases |m|
  {
    var first :| first in m && Sum(m) == m[first] + Sum(m - {first});
    if first != k {
      MapWithout(m, first);
      MapWithout(m, k);
      SumWithout(m - {first}, k);
      SumWithout(m - {k}, first);
      assert m - {first} - {k} == m - {k} - {first};
    }
  }

  lemma SumWith<K>(m: map<K, int>, k: K, v: int)
    requires k !in m
    ensures Sum(m[k := v]) == Sum(m) + v
  {
    SumWithout(m[k := v], k);
    assert m[k := v] - {k} == m;
  }

  lemma SumUpdated<K>(m: map<K, int>, k: K, v: int)
    requires k in m
    ensures Sum(m[k := v]) == Sum(m) - m[k] + v
  {
    SumWithout(m, k);
    assert m[k := v] - {k} == m - {k};
    SumWithout(m[k := v], k);
  }
}
