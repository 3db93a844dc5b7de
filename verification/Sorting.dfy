/** `sorted` under a total order: the result depends only on which elements the list holds. */
module Sorting {

  ghost predicate TotalOrder<T(!new)>(le: (T, T) -> bool) {
    && (forall a, b :: le(a, b) || le(b, a))
    && (forall a, b :: le(a, b) && le(b, a) ==> a == b)
    && (forall a, b, c :: le(a, b) && le(b, c) ==> le(a, c))
  }

  function Insert<T>(le: (T, T) -> bool, v: T, s: seq<T>): seq<T> {
    if s == [] || le(v, s[0]) then [v] + s else [s[0]] + Insert(le, v, s[1..])
  }

  function Sort<T>(le: (T, T) -> bool, items: seq<T>): seq<T> {
    if items == [] then [] else Insert(le, items[0], Sort(le, items[1..]))
  }

  ghost predicate Sorted<T>(le: (T, T) -> bool, s: seq<T>) {
    forall i, j | 0 <= i <= j < |s| :: le(s[i], s[j])
  }

  lemma {:induction false} InsertSorts<T(!new)>(le: (T, T) -> bool, v: T, s: seq<T>)
    requires TotalOrder(le) && Sorted(le, s)
    ensures multiset(Insert(le, v, s)) == multiset(s) + multiset{v}
    ensures Sorted(le, Insert(le, v, s))
  {
    if s == [] || le(v, s[0]) {
      forall i | 0 <= i < |s| ensures le(v, s[i]) { assert le(s[0], s[i]); }
    } else {
      var rest := Insert(le, v, s[1..]);
      InsertSorts(le, v, s[1..]);
      assert s == [s[0]] + s[1..];
      forall i | 0 <= i < |rest| ensures le(s[0], rest[i]) {
        assert rest[i] in multiset(rest);
        if rest[i] != v { assert rest[i] in s[1..]; }
      }
    }
  }

  lemma {:induction false} SortSorts<T(!new)>(le: (T, T) -> bool, items: seq<T>)
    requires TotalOrder(le)
    ensures multiset(Sort(le, items)) == multiset(items) && Sorted(le, Sort(le, items))
    ensures |Sort(le, items)| == |items|
  {
    if items != [] {
      SortSorts(le, items[1..]);
      InsertSorts(le, items[0], Sort(le, items[1..]));
      assert items == [items[0]] + items[1..];
    }
    SameLength(Sort(le, items), items);
  }

  lemma SameLength<T>(s: seq<T>, t: seq<T>)
    requires multiset(s) == multiset(t)
    ensures |s| == |t|
  {
    assert |multiset(s)| == |s| && |multiset(t)| == |t|;
  }

  lemma TailMultiset<T>(s: seq<T>, t: seq<T>)
    requires s != [] && t != [] && s[0] == t[0] && multiset(s) == multiset(t)
    ensures multiset(s[1..]) == multiset(t[1..])
  {
    assert s == [s[0]] + s[1..] && t == [t[0]] + t[1..];
    assert multiset(s[1..]) == multiset(s) - multiset{s[0]};
    assert multiset(t[1..]) == multiset(t) - multiset{t[0]};
  }

  lemma SortedHead<T>(le: (T, T) -> bool, s: seq<T>, v: T)
    requires Sorted(le, s) && v in multiset(s)
    ensures s != [] && le(s[0], v)
  {
    var i :| 0 <= i < |s| && s[i] == v;
  }

  /** Sorted lists with the same elements are the same list. */
  lemma {:induction false} SortedUnique<T(!new)>(le: (T, T) -> bool, s: seq<T>, t: seq<T>)
    requires TotalOrder(le) && Sorted(le, s) && Sorted(le, t) && multiset(s) == multiset(t)
    ensures s == t
  {
    assert |s| == |multiset(s)| == |multiset(t)| == |t|;
    if s != [] {
      SortedHead(le, s, t[0]);
      SortedHead(le, t, s[0]);
      TailMultiset(s, t);
      SortedUnique(le, s[1..], t[1..]);
      assert s == [s[0]] + s[1..] && t == [t[0]] + t[1..];
    }
  }

  lemma SortSame<T(!new)>(le: (T, T) -> bool, s: seq<T>, t: seq<T>)
    requires TotalOrder(le)
    ensures Sort(le, s) == Sort(le, t) <==> multiset(s) == multiset(t)
  {
    SortSorts(le, s);
    SortSorts(le, t);
    if multiset(s) == multiset(t) { SortedUnique(le, Sort(le, s), Sort(le, t)); }
  }

  // ---------------------------------------------------------------- permutations and multisets

  ghost predicate Permutation(p: seq<nat>, n: nat) {
    && |p| == n
    && (forall i | 0 <= i < n :: p[i] < n)
    && (forall i, j | 0 <= i < j < n :: p[i] != p[j])
  }

  ghost predicate Matches<T>(s: seq<T>, t: seq<T>, p: seq<nat>) {
    |s| == |t| && Permutation(p, |s|) && forall i | 0 <= i < |s| :: s[i] == t[p[i]]
  }

  function Without<T>(s: seq<T>, k: nat): seq<T>
    requires k < |s|
  {
    s[..k] + s[k + 1..]
  }

  /** The indices of a list from which position `k` was removed, as indices of the whole list. */
  function Shift(q: seq<nat>, k: nat): seq<nat> {
    seq(|q|, i requires 0 <= i < |q| => if q[i] < k then q[i] else q[i] + 1)
  }

  lemma RestMultiset<T>(s: seq<T>, t: seq<T>, k: nat)
    requires s != [] && k < |t| && s[0] == t[k]
    ensures multiset(s) == multiset(t) <==> multiset(s[1..]) == multiset(Without(t, k))
  {
    assert t == t[..k] + [t[k]] + t[k + 1..];
    assert s == [s[0]] + s[1..];
    assert multiset(s[1..]) == multiset(s) - multiset{s[0]};
    assert multiset(Without(t, k)) == multiset(t) - multiset{t[k]};
  }

  lemma {:induction false} SameMultisetMatches<T>(s: seq<T>, t: seq<T>) returns (p: seq<nat>)
    requires multiset(s) == multiset(t)
    ensures Matches(s, t, p)
  {
    assert |s| == |multiset(s)| == |multiset(t)| == |t|;
    if s == [] {
      p := [];
    } else {
      assert s[0] in multiset(t);
      var k :| 0 <= k < |t| && t[k] == s[0];
      RestMultiset(s, t, k);
      var q := SameMultisetMatches(s[1..], Without(t, k));
      p := [k] + Shift(q, k);
      MatchFirst(s, t, k, q);
    }
  }

  lemma MatchFirst<T>(s: seq<T>, t: seq<T>, k: nat, q: seq<nat>)
    requires |s| == |t| && k < |t| && t[k] == s[0] && Matches(s[1..], Without(t, k), q)
    ensures Matches(s, t, [k] + Shift(q, k))
  {
    var p := [k] + Shift(q, k);
    forall i | 0 <= i < |s| ensures p[i] < |s| && s[i] == t[p[i]] {
      if i > 0 { assert s[1..][i - 1] == Without(t, k)[q[i - 1]]; }
    }
  }

  lemma {:induction false} MatchesSameMultiset<T>(s: seq<T>, t: seq<T>, p: seq<nat>)
    requires Matches(s, t, p)
    ensures multiset(s) == multiset(t)
  {
    if s != [] {
      var k := p[0];
      var q := seq(|p| - 1, i requires 0 <= i < |p| - 1 => if p[i + 1] < k then p[i + 1] else p[i + 1] - 1);
      forall i | 0 <= i < |q| ensures s[1..][i] == Without(t, k)[q[i]] && q[i] < |t| - 1 {
        assert p[0] != p[i + 1];
      }
      MatchesSameMultiset(s[1..], Without(t, k), q);
      RestMultiset(s, t, k);
    }
  }

  // ---------------------------------------------------------------- permutations of positions

  function Identity(n: nat): seq<nat> { seq(n, i requires 0 <= i < n => i) }

  lemma IdentityIsPermutation(n: nat)
    ensures Permutation(Identity(n), n)
  {}

  /** Every permutation can be undone. */
  lemma Inverse(p: seq<nat>, n: nat) returns (q: seq<nat>)
    requires Permutation(p, n)
    ensures Permutation(q, n) && forall i | 0 <= i < n :: p[q[i]] == i
  {
    assert Matches(p, Identity(n), p);
    MatchesSameMultiset(p, Identity(n), p);
    q := SameMultisetMatches(Identity(n), p);
    assert forall i | 0 <= i < n :: Identity(n)[i] == p[q[i]];
  }

  /** First p, then q. */
  lemma Composition(p: seq<nat>, q: seq<nat>, n: nat) returns (r: seq<nat>)
    requires Permutation(p, n) && Permutation(q, n)
    ensures Permutation(r, n) && forall i | 0 <= i < n :: r[i] == q[p[i]]
  {
    r := seq(n, i requires 0 <= i < n => q[p[i]]);
    forall i, j | 0 <= i < j < n ensures r[i] != r[j] {
      assert p[i] != p[j];
    }
  }
}
