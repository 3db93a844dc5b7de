/** Entity-resolution evaluation (tools/evaluate_entity_resolution.py): predicted pairs above a
    threshold are merged into clusters, and the clusters are scored against labelled truth. */
module EntityResolution {

  type Ref = string

  /** A frozenset of the two ends of a link (one element when both ends are the same record). */
  type Pair = p: set<Ref> | p != {} witness {""}

  function MakePair(left: Ref, right: Ref): Pair { {left, right} }

  // ---------------------------------------------------------------- connectivity

  /** Consecutive records of a path share one of the pairs. */
  ghost predicate Linked(pairs: set<Pair>, x: Ref, y: Ref) { exists p | p in pairs :: x in p && y in p }

  ghost predicate Hop(pairs: set<Pair>, path: seq<Ref>, i: nat)
    requires i < |path| - 1
  {
    Linked(pairs, path[i], path[i + 1])
  }

  ghost predicate Path(pairs: set<Pair>, path: seq<Ref>, x: Ref, y: Ref) {
    && path != [] && path[0] == x && path[|path| - 1] == y
    && forall i | 0 <= i < |path| - 1 :: Hop(pairs, path, i)
  }

  ghost predicate Connected(pairs: set<Pair>, x: Ref, y: Ref) { exists path :: Path(pairs, path, x, y) }

  ghost function Covered(pairs: set<Pair>): set<Ref> { set p, x | p in pairs && x in p :: x }

  lemma ConnectedSelf(pairs: set<Pair>, x: Ref)
    ensures Connected(pairs, x, x)
  {
    assert Path(pairs, [x], x, x);
  }

  lemma LinkConnects(pairs: set<Pair>, p: Pair, x: Ref, y: Ref)
    requires p in pairs && x in p && y in p
    ensures Connected(pairs, x, y)
  {
    assert Linked(pairs, x, y);
    assert Path(pairs, [x, y], x, y);
  }

  lemma ConnectedTransitive(pairs: set<Pair>, x: Ref, y: Ref, z: Ref)
    requires Connected(pairs, x, y) && Connected(pairs, y, z)
    ensures Connected(pairs, x, z)
  {
    var p :| Path(pairs, p, x, y);
    var q :| Path(pairs, q, y, z);
    var r := p + q[1..];
    forall i | 0 <= i < |r| - 1 ensures Hop(pairs, r, i) {
      assert if i < |p| - 1 then Hop(pairs, p, i) else Hop(pairs, q, i - |p| + 1);
    }
    assert Path(pairs, r, x, z);
  }

  lemma ConnectedGrows(few: set<Pair>, many: set<Pair>, x: Ref, y: Ref)
    requires few <= many && Connected(few, x, y)
    ensures Connected(many, x, y)
  {
    var path :| Path(few, path, x, y);
    forall i | 0 <= i < |path| - 1 ensures Hop(many, path, i) {
      assert Hop(few, path, i);
      var p :| p in few && path[i] in p && path[i + 1] in p;
      assert p in many;
    }
    assert Path(many, path, x, y);
  }

  // ---------------------------------------------------------------- what a component list is

  ghost predicate Disjoint(cs: seq<set<Ref>>) {
    && (forall i | 0 <= i < |cs| :: cs[i] != {})
    && (forall i, j | 0 <= i < j < |cs| :: cs[i] !! cs[j])
  }

  ghost predicate Within(p: set<Ref>, cs: seq<set<Ref>>) { exists c | c in cs :: p <= c }

  ghost predicate Together(cs: seq<set<Ref>>, x: Ref, y: Ref) { exists c | c in cs :: x in c && y in c }

  /** The working invariant: disjoint blocks, each pair inside one block, each block connected. */
  ghost predicate Blocks(pairs: set<Pair>, cs: seq<set<Ref>>) {
    Disjoint(cs) && Closed(pairs, cs) && AllCohesive(pairs, cs)
  }

  ghost predicate AllCohesive(pairs: set<Pair>, cs: seq<set<Ref>>) { forall c | c in cs :: Cohesive(pairs, c) }

  ghost predicate Closed(pairs: set<Pair>, cs: seq<set<Ref>>) { forall p | p in pairs :: Within(p, cs) }

  ghost predicate Cohesive(pairs: set<Pair>, c: set<Ref>) {
    c <= Covered(pairs) && forall x, y | x in c && y in c :: Connected(pairs, x, y)
  }

  /** The specification: nonempty disjoint sets that cover exactly the paired records and put
      two records together exactly when a path of pairs connects them. */
  ghost predicate Components(pairs: set<Pair>, cs: seq<set<Ref>>) {
    Disjoint(cs) && CoversExactly(pairs, cs) && JoinsExactly(pairs, cs)
  }

  ghost predicate CoversExactly(pairs: set<Pair>, cs: seq<set<Ref>>) { forall x :: CoversAt(pairs, cs, x) }

  ghost predicate CoversAt(pairs: set<Pair>, cs: seq<set<Ref>>, x: Ref) { x in Covered(pairs) <==> Together(cs, x, x) }

  ghost predicate JoinsExactly(pairs: set<Pair>, cs: seq<set<Ref>>) { forall x, y :: JoinsAt(pairs, cs, x, y) }

  ghost predicate JoinsAt(pairs: set<Pair>, cs: seq<set<Ref>>, x: Ref, y: Ref) {
    x in Covered(pairs) ==> (Together(cs, x, y) <==> Connected(pairs, x, y))
  }

  lemma Covers(pairs: set<Pair>, cs: seq<set<Ref>>, x: Ref)
    requires Components(pairs, cs)
    ensures x in Covered(pairs) <==> Together(cs, x, x)
  {
    assert CoversAt(pairs, cs, x);
  }

  lemma Joins(pairs: set<Pair>, cs: seq<set<Ref>>, x: Ref, y: Ref)
    requires Components(pairs, cs) && x in Covered(pairs)
    ensures Together(cs, x, y) <==> Connected(pairs, x, y)
  {
    assert JoinsAt(pairs, cs, x, y);
  }

  lemma DisjointTail(cs: seq<set<Ref>>)
    requires Disjoint(cs) && cs != []
    ensures cs[0] != {} && Disjoint(cs[1..]) && forall d | d in cs[1..] :: cs[0] !! d
  {
    assert forall i | 0 <= i < |cs| - 1 :: cs[1..][i] == cs[i + 1];
  }

  lemma DisjointAdd(c: set<Ref>, cs: seq<set<Ref>>)
    requires c != {} && Disjoint(cs) && forall d | d in cs :: c !! d
    ensures Disjoint([c] + cs) && Disjoint(cs + [c])
  {
    assert forall i | 0 <= i < |cs| :: cs[i] in cs;
    assert forall i | 0 < i <= |cs| :: ([c] + cs)[i] == cs[i - 1];
  }

  lemma SameBlock(cs: seq<set<Ref>>, c: set<Ref>, d: set<Ref>, x: Ref)
    requires Disjoint(cs) && c in cs && d in cs && x in c && x in d
    ensures c == d
  {
    var i :| 0 <= i < |cs| && cs[i] == c;
    var j :| 0 <= j < |cs| && cs[j] == d;
  }

  /** A path of pairs never leaves a block. */
  lemma {:induction false} PathStaysInBlock(pairs: set<Pair>, cs: seq<set<Ref>>, path: seq<Ref>, c: set<Ref>)
    requires Disjoint(cs) && Closed(pairs, cs)
    requires path != [] && c in cs && path[0] in c
    requires forall i | 0 <= i < |path| - 1 :: Hop(pairs, path, i)
    ensures path[|path| - 1] in c
  {
    if |path| > 1 {
      assert Hop(pairs, path, 0);
      var p :| p in pairs && path[0] in p && path[1] in p;
      var d :| d in cs && p <= d;
      SameBlock(cs, c, d, path[0]);
      forall i | 0 <= i < |path[1..]| - 1 ensures Hop(pairs, path[1..], i) { assert Hop(pairs, path, i + 1); }
      PathStaysInBlock(pairs, cs, path[1..], c);
    }
  }

  lemma ConnectedTogether(pairs: set<Pair>, cs: seq<set<Ref>>, x: Ref, y: Ref)
    requires Disjoint(cs) && Closed(pairs, cs)
    requires x in Covered(pairs) && Connected(pairs, x, y)
    ensures Together(cs, x, y)
  {
    var p :| p in pairs && x in p;
    assert Within(p, cs);
    var c :| c in cs && p <= c;
    var path :| Path(pairs, path, x, y);
    PathStaysInBlock(pairs, cs, path, c);
  }

  lemma TogetherConnected(pairs: set<Pair>, cs: seq<set<Ref>>, x: Ref, y: Ref)
    requires AllCohesive(pairs, cs) && Together(cs, x, y)
    ensures x in Covered(pairs) && Connected(pairs, x, y)
  {
    var c :| c in cs && x in c && y in c;
    assert Cohesive(pairs, c);
  }

  lemma BlocksCover(pairs: set<Pair>, cs: seq<set<Ref>>)
    requires Blocks(pairs, cs)
    ensures CoversExactly(pairs, cs)
  {
    forall x ensures CoversAt(pairs, cs, x) {
      if x in Covered(pairs) {
        ConnectedSelf(pairs, x);
        ConnectedTogether(pairs, cs, x, x);
      } else if Together(cs, x, x) {
        TogetherConnected(pairs, cs, x, x);
      }
    }
  }

  lemma BlocksJoin(pairs: set<Pair>, cs: seq<set<Ref>>)
    requires Blocks(pairs, cs)
    ensures JoinsExactly(pairs, cs)
  {
    forall x, y ensures JoinsAt(pairs, cs, x, y) {
      if x in Covered(pairs) {
        if Connected(pairs, x, y) {
          ConnectedTogether(pairs, cs, x, y);
        } else if Together(cs, x, y) {
          TogetherConnected(pairs, cs, x, y);
        }
      }
    }
  }

  lemma BlocksAreComponents(pairs: set<Pair>, cs: seq<set<Ref>>)
    requires Blocks(pairs, cs)
    ensures Components(pairs, cs)
  {
    BlocksCover(pairs, cs);
    BlocksJoin(pairs, cs);
  }

  /** Two component lists of the same pairs hold the same sets: the iteration order of the pairs
      cannot be seen in the result. */
  lemma ComponentsUnique(pairs: set<Pair>, cs: seq<set<Ref>>, ds: seq<set<Ref>>)
    requires Components(pairs, cs) && Components(pairs, ds)
    ensures forall c :: c in cs <==> c in ds
    ensures multiset(cs) == multiset(ds)
  {
    forall c | c in cs ensures c in ds { ComponentsInclude(pairs, cs, ds, c); }
    forall c | c in ds ensures c in cs { ComponentsInclude(pairs, ds, cs, c); }
    forall c ensures multiset(cs)[c] == multiset(ds)[c] {
      NoRepeats(cs, c);
      NoRepeats(ds, c);
    }
  }

  lemma ComponentsInclude(pairs: set<Pair>, cs: seq<set<Ref>>, ds: seq<set<Ref>>, c: set<Ref>)
    requires Components(pairs, cs) && Components(pairs, ds) && c in cs
    ensures c in ds
  {
    var i :| 0 <= i < |cs| && cs[i] == c;
    var x :| x in c;
    assert Together(cs, x, x);
    Covers(pairs, cs, x);
    Covers(pairs, ds, x);
    var d :| d in ds && x in d;
    forall y ensures y in c <==> y in d {
      Joins(pairs, cs, x, y);
      Joins(pairs, ds, x, y);
      if y in c {
        assert Together(cs, x, y) && Together(ds, x, y);
        var e :| e in ds && x in e && y in e;
        SameBlock(ds, d, e, x);
      }
      if y in d {
        assert Together(ds, x, y) && Together(cs, x, y);
        var e :| e in cs && x in e && y in e;
        SameBlock(cs, c, e, x);
      }
    }
    assert c == d;
  }

  lemma {:induction false} NoRepeats(cs: seq<set<Ref>>, c: set<Ref>)
    requires Disjoint(cs)
    ensures multiset(cs)[c] == if c in cs then 1 else 0
  {
    if cs != [] {
      assert cs == [cs[0]] + cs[1..];
      DisjointTail(cs);
      NoRepeats(cs[1..], c);
    }
  }

  // ---------------------------------------------------------------- the merge loop

  /** The components that share a record with `pair`, in list order. */
  function Touching(cs: seq<set<Ref>>, pair: set<Ref>): (r: seq<set<Ref>>)
    ensures forall c :: c in r <==> c in cs && c * pair != {}
  {
    if cs == [] then []
    else (if cs[0] * pair != {} then [cs[0]] else []) + Touching(cs[1..], pair)
  }

  lemma {:induction false} TouchingDisjoint(cs: seq<set<Ref>>, pair: set<Ref>)
    requires Disjoint(cs)
    ensures Disjoint(Touching(cs, pair))
  {
    if cs != [] {
      DisjointTail(cs);
      TouchingDisjoint(cs[1..], pair);
      var rest := Touching(cs[1..], pair);
      DisjointAdd(cs[0], rest);
      assert [] + rest == rest;
    }
  }

  /** `list.remove`: drop the first element equal to `c`. */
  function Remove(cs: seq<set<Ref>>, c: set<Ref>): (r: seq<set<Ref>>)
    requires c in cs
  {
    if cs[0] == c then cs[1..] else [cs[0]] + Remove(cs[1..], c)
  }

  lemma {:induction false} RemoveDrops(cs: seq<set<Ref>>, c: set<Ref>)
    requires Disjoint(cs) && c in cs
    ensures Disjoint(Remove(cs, c)) && forall d :: d in Remove(cs, c) <==> d in cs && d != c
  {
    DisjointTail(cs);
    assert cs == [cs[0]] + cs[1..];
    if cs[0] != c {
      RemoveDrops(cs[1..], c);
      DisjointAdd(cs[0], Remove(cs[1..], c));
    }
  }

  ghost function Members(cs: seq<set<Ref>>): set<Ref> { set c, x | c in cs && x in c :: x }

  /** `rest` and `merged` split the blocks by whether they touch the pair. */
  ghost predicate Split(before: seq<set<Ref>>, pair: Pair, rest: seq<set<Ref>>, merged: seq<set<Ref>>) {
    && (forall c :: c in rest <==> c in before && c * pair == {})
    && (forall c :: c in merged <==> c in before && c * pair != {})
  }

  lemma MergedApart(before: seq<set<Ref>>, pair: Pair, rest: seq<set<Ref>>, merged: seq<set<Ref>>)
    requires Disjoint(before) && Disjoint(rest) && Split(before, pair, rest, merged)
    ensures Disjoint(rest + [pair + Members(merged)])
  {
    forall c, x | c in rest && x in c ensures x !in pair + Members(merged) {
      if x in Members(merged) {
        var d :| d in merged && x in d;
        SameBlock(before, c, d, x);
      }
      assert x in pair ==> x in c * pair;
    }
    DisjointAdd(pair + Members(merged), rest);
  }

  lemma MergedClosed(pairs: set<Pair>, pair: Pair, before: seq<set<Ref>>, rest: seq<set<Ref>>,
                     merged: seq<set<Ref>>)
    requires Closed(pairs, before) && Split(before, pair, rest, merged)
    ensures Closed(pairs + {pair}, rest + [pair + Members(merged)])
  {
    var combined := pair + Members(merged);
    var after := rest + [combined];
    assert combined in after;
    forall p | p in pairs + {pair} ensures Within(p, after) {
      if p != pair {
        assert Within(p, before);
        var c :| c in before && p <= c;
        if c * pair == {} { assert c in after; } else { assert p <= combined; }
      }
    }
  }

  lemma ReachesPair(pairs: set<Pair>, pair: Pair, c: set<Ref>, x: Ref, hub: Ref)
    requires Cohesive(pairs, c) && c * pair != {} && x in c && hub in pair
    ensures Connected(pairs + {pair}, x, hub) && Connected(pairs + {pair}, hub, x)
  {
    var all := pairs + {pair};
    var z :| z in c * pair;
    ConnectedGrows(pairs, all, x, z);
    ConnectedGrows(pairs, all, z, x);
    LinkConnects(all, pair, z, hub);
    LinkConnects(all, pair, hub, z);
    ConnectedTransitive(all, x, z, hub);
    ConnectedTransitive(all, hub, z, x);
  }

  lemma MergedCohesive(pairs: set<Pair>, pair: Pair, merged: seq<set<Ref>>)
    requires forall c | c in merged :: Cohesive(pairs, c) && c * pair != {}
    ensures Cohesive(pairs + {pair}, pair + Members(merged))
  {
    var all, combined := pairs + {pair}, pair + Members(merged);
    var hub :| hub in pair;
    forall x | x in combined
      ensures x in Covered(all) && Connected(all, x, hub) && Connected(all, hub, x)
    {
      if x in pair {
        LinkConnects(all, pair, x, hub);
        LinkConnects(all, pair, hub, x);
      } else {
        var c :| c in merged && x in c;
        ReachesPair(pairs, pair, c, x, hub);
        assert x in Covered(pairs);
      }
    }
    forall x, y | x in combined && y in combined ensures Connected(all, x, y) {
      ConnectedTransitive(all, x, hub, y);
    }
  }

  lemma CohesiveGrows(few: set<Pair>, many: set<Pair>, c: set<Ref>)
    requires few <= many && Cohesive(few, c)
    ensures Cohesive(many, c)
  {
    forall x, y | x in c && y in c ensures Connected(many, x, y) { ConnectedGrows(few, many, x, y); }
    forall x | x in c ensures x in Covered(many) { assert x in Covered(few); }
  }

  lemma MergedAllCohesive(pairs: set<Pair>, pair: Pair, before: seq<set<Ref>>, rest: seq<set<Ref>>,
                          merged: seq<set<Ref>>)
    requires AllCohesive(pairs, before) && Split(before, pair, rest, merged)
    ensures AllCohesive(pairs + {pair}, rest + [pair + Members(merged)])
  {
    MergedCohesive(pairs, pair, merged);
    forall c | c in rest ensures Cohesive(pairs + {pair}, c) { CohesiveGrows(pairs, pairs + {pair}, c); }
  }

  /** Merging a pair with every block it touches gives the blocks of the larger pair set. */
  lemma MergeKeepsBlocks(pairs: set<Pair>, pair: Pair, before: seq<set<Ref>>, rest: seq<set<Ref>>,
                         merged: seq<set<Ref>>)
    requires Blocks(pairs, before) && Disjoint(rest) && Split(before, pair, rest, merged)
    ensures Blocks(pairs + {pair}, rest + [pair + Members(merged)])
  {
    MergedApart(before, pair, rest, merged);
    MergedClosed(pairs, pair, before, rest, merged);
    MergedAllCohesive(pairs, pair, before, rest, merged);
  }

  ghost function AsSet(pairs: seq<Pair>): set<Pair> { set p | p in pairs }

  /** The inner loop: take each touched component out of the list and into the combined set. */
  method Absorb(components: seq<set<Ref>>, pair: Pair, merged: seq<set<Ref>>)
    returns (rest: seq<set<Ref>>, combined: set<Ref>)
    requires Disjoint(components) && Disjoint(merged)
    requires forall c :: c in merged <==> c in components && c * pair != {}
    ensures Disjoint(rest) && Split(components, pair, rest, merged)
    ensures combined == pair + Members(merged)
  {
    rest, combined := components, pair;
    for j := 0 to |merged|
      invariant combined == pair + Members(merged[..j])
      invariant Disjoint(rest)
      invariant forall c :: c in rest <==> c in components && c !in merged[..j]
    {
      NotEarlier(merged, j);
      RemoveDrops(rest, merged[j]);
      MembersStep(merged, j);
      combined := combined + merged[j];
      rest := Remove(rest, merged[j]);
    }
    assert merged[..|merged|] == merged;
  }

  /** `_components`: for every order in which the pairs arrive, the result is their component list. */
  method FindComponents(pairs: seq<Pair>) returns (components: seq<set<Ref>>)
    ensures Components(AsSet(pairs), components)
  {
    components := [];
    for i := 0 to |pairs|
      invariant Blocks(AsSet(pairs[..i]), components)
    {
      var pair := pairs[i];
      var merged := Touching(components, pair);
      assert AsSet(pairs[..i + 1]) == AsSet(pairs[..i]) + {pair};
      if merged == [] {
        assert pair + Members(merged) == pair;
        MergeKeepsBlocks(AsSet(pairs[..i]), pair, components, components, merged);
        components := components + [pair];
      } else {
        TouchingDisjoint(components, pair);
        var rest, combined := Absorb(components, pair, merged);
        MergeKeepsBlocks(AsSet(pairs[..i]), pair, components, rest, merged);
        components := rest + [combined];
      }
    }
    assert pairs[..|pairs|] == pairs;
    BlocksAreComponents(AsSet(pairs), components);
  }

  lemma MembersStep(cs: seq<set<Ref>>, j: nat)
    requires j < |cs|
    ensures Members(cs[..j + 1]) == Members(cs[..j]) + cs[j]
    ensures forall c :: c in cs[..j + 1] <==> c in cs[..j] || c == cs[j]
  {
    assert cs[..j + 1] == cs[..j] + [cs[j]];
    forall x ensures x in Members(cs[..j + 1]) <==> x in Members(cs[..j]) + cs[j] {
      if x in cs[j] { assert cs[j] in cs[..j + 1]; }
    }
  }

  lemma NotEarlier(cs: seq<set<Ref>>, j: nat)
    requires Disjoint(cs) && j < |cs|
    ensures cs[j] !in cs[..j]
  {
    forall i | 0 <= i < j ensures cs[i] != cs[j] { assert cs[i] !! cs[j]; }
  }
}
