/** Scores of one entity-resolution evaluation and how they move with the threshold
    (tools/evaluate_entity_resolution.py, `evaluate_entity_resolution`). */
module EntityEvaluation {
  import opened Common
  import opened EntityResolution

  datatype Edge = Edge(left: Ref, right: Ref, probability: real)

  datatype Counts = Counts(
    truePositive: nat, falsePositive: nat, falseNegative: nat,
    precision: real, recall: real, f1: real, blockingRecall: real, falseMerges: nat)

  datatype Report = Report(counts: Counts, clusters: Scores, fragmented: nat)

  /** Contaminated clusters, the entities they touch, and the two largest cluster sizes. */
  datatype Scores = Scores(contaminated: nat, ids: set<string>, largestContaminated: nat, largest: nat)

  function Candidates(edges: seq<Edge>): set<Pair> { set e | e in edges :: MakePair(e.left, e.right) }

  function Predicted(edges: seq<Edge>, threshold: real): set<Pair> {
    set e | e in edges && e.probability >= threshold :: MakePair(e.left, e.right)
  }

  function TruePositives(predicted: set<Pair>, positives: set<Pair>): nat { |predicted * positives| }

  function FalsePositives(predicted: set<Pair>, positives: set<Pair>, negatives: set<Pair>): nat {
    |predicted * negatives| + |predicted - positives - negatives|
  }

  function FalseNegatives(predicted: set<Pair>, positives: set<Pair>): nat { |positives - predicted| }

  function Ratio(part: nat, whole: nat): real { if whole == 0 then 0.0 else part as real / whole as real }

  function Recall(predicted: set<Pair>, positives: set<Pair>): real {
    Ratio(TruePositives(predicted, positives),
          TruePositives(predicted, positives) + FalseNegatives(predicted, positives))
  }

  function BlockingRecall(edges: seq<Edge>, positives: set<Pair>): real {
    Ratio(|positives * Candidates(edges)|, |positives|)
  }

  // ---------------------------------------------------------------- cluster scores

  function Hits(truth: map<string, set<Ref>>, refs: set<Ref>): set<string> {
    set id | id in truth && refs * truth[id] != {}
  }

  predicate Contaminated(truth: map<string, set<Ref>>, negatives: set<Pair>, refs: set<Ref>) {
    |Hits(truth, refs)| > 1 || exists x, y | x in refs && y in refs :: x != y && MakePair(x, y) in negatives
  }

  /** How many rows share a record with `refs`. */
  function Overlaps(rows: seq<set<Ref>>, refs: set<Ref>): nat {
    if rows == [] then 0 else (if refs * rows[0] != {} then 1 else 0) + Overlaps(rows[1..], refs)
  }

  /** The contaminated ones among the first `n` rows. */
  ghost function ContaminatedRows(truth: map<string, set<Ref>>, negatives: set<Pair>, rows: seq<set<Ref>>,
                                  n: nat): set<nat>
    requires n <= |rows|
  {
    set i: nat | i < n && Contaminated(truth, negatives, rows[i])
  }

  ghost function HitsOf(truth: map<string, set<Ref>>, rows: seq<set<Ref>>, chosen: set<nat>): set<string>
    requires forall i | i in chosen :: i < |rows|
  {
    set i, id | i in chosen && id in Hits(truth, rows[i]) :: id
  }

  /** `n` is the size of the largest chosen row, 0 when none is chosen. */
  ghost predicate IsLargest(n: nat, rows: seq<set<Ref>>, chosen: set<nat>)
    requires forall i | i in chosen :: i < |rows|
  {
    && (forall i | i in chosen :: |rows[i]| <= n)
    && (n == 0 || exists i | i in chosen :: |rows[i]| == n)
  }

  ghost function Rows(rows: seq<set<Ref>>, n: nat): set<nat>
    requires n <= |rows|
  {
    set i: nat {:trigger rows[i]} | i < n
  }

  /** `set` iteration: some order of the elements. */
  method Enumerate(pairs: set<Pair>) returns (order: seq<Pair>)
    ensures AsSet(order) == pairs
  {
    order := [];
    var left := pairs;
    while left != {}
      invariant AsSet(order) + left == pairs
    {
      var p :| p in left;
      order, left := order + [p], left - {p};
    }
  }

  lemma HitsOfStep(truth: map<string, set<Ref>>, rows: seq<set<Ref>>, chosen: set<nat>, i: nat)
    requires i < |rows| && forall k | k in chosen :: k < i
    ensures HitsOf(truth, rows, chosen + {i}) == HitsOf(truth, rows, chosen) + Hits(truth, rows[i])
  {}

  lemma LargestStep(n: nat, rows: seq<set<Ref>>, chosen: set<nat>, i: nat)
    requires i < |rows| && (forall k | k in chosen :: k < i) && IsLargest(n, rows, chosen)
    ensures IsLargest(if |rows[i]| > n then |rows[i]| else n, rows, chosen + {i})
  {
    assert i in chosen + {i};
    if n != 0 && |rows[i]| <= n {
      var k :| k in chosen && |rows[k]| == n;
      assert k in chosen + {i};
    }
  }

  lemma RowsStep(truth: map<string, set<Ref>>, negatives: set<Pair>, rows: seq<set<Ref>>, i: nat)
    requires i < |rows|
    ensures ContaminatedRows(truth, negatives, rows, i + 1)
         == ContaminatedRows(truth, negatives, rows, i)
            + (if Contaminated(truth, negatives, rows[i]) then {i} else {})
    ensures Rows(rows, i + 1) == Rows(rows, i) + {i}
  {}

  /** The scores of the first `n` rows. */
  ghost predicate Scored(truth: map<string, set<Ref>>, negatives: set<Pair>, rows: seq<set<Ref>>, n: nat, t: Scores)
    requires n <= |rows|
  {
    var chosen := ContaminatedRows(truth, negatives, rows, n);
    && t.contaminated == |chosen|
    && t.ids == HitsOf(truth, rows, chosen)
    && IsLargest(t.largestContaminated, rows, chosen)
    && IsLargest(t.largest, rows, Rows(rows, n))
  }

  function Max(a: nat, b: nat): nat { if a > b then a else b }

  lemma ScoredStep(truth: map<string, set<Ref>>, negatives: set<Pair>, rows: seq<set<Ref>>, n: nat, t: Scores)
    requires n < |rows| && Scored(truth, negatives, rows, n, t)
    ensures Scored(truth, negatives, rows, n + 1,
                   if Contaminated(truth, negatives, rows[n])
                   then Scores(t.contaminated + 1, t.ids + Hits(truth, rows[n]),
                               Max(|rows[n]|, t.largestContaminated), Max(|rows[n]|, t.largest))
                   else t.(largest := Max(|rows[n]|, t.largest)))
  {
    var chosen := ContaminatedRows(truth, negatives, rows, n);
    RowsStep(truth, negatives, rows, n);
    LargestStep(t.largest, rows, Rows(rows, n), n);
    if Contaminated(truth, negatives, rows[n]) {
      HitsOfStep(truth, rows, chosen, n);
      LargestStep(t.largestContaminated, rows, chosen, n);
    }
  }

  /** The loop over the clusters. */
  method ScoreClusters(rows: seq<set<Ref>>, truth: map<string, set<Ref>>, negatives: set<Pair>) returns (t: Scores)
    ensures Scored(truth, negatives, rows, |rows|, t)
  {
    var contaminated, ids, largestContaminated, largest := 0, {}, 0, 0;
    for i := 0 to |rows|
      invariant Scored(truth, negatives, rows, i, Scores(contaminated, ids, largestContaminated, largest))
    {
      var refs := rows[i];
      ScoredStep(truth, negatives, rows, i, Scores(contaminated, ids, largestContaminated, largest));
      largest := Max(|refs|, largest);
      if Contaminated(truth, negatives, refs) {
        contaminated := contaminated + 1;
        largestContaminated := Max(|refs|, largestContaminated);
        ids := ids + Hits(truth, refs);
      }
    }
    t := Scores(contaminated, ids, largestContaminated, largest);
  }

  method FindFragmented(rows: seq<set<Ref>>, truth: map<string, set<Ref>>) returns (fragmented: set<string>)
    ensures fragmented == set id | id in truth && Overlaps(rows, truth[id]) > 1
  {
    fragmented := {};
    var left := truth.Keys;
    while left != {}
      invariant left <= truth.Keys
      invariant fragmented == set id | id in truth && id !in left && Overlaps(rows, truth[id]) > 1
    {
      var id :| id in left;
      left := left - {id};
      if Overlaps(rows, truth[id]) > 1 { fragmented := fragmented + {id}; }
    }
  }

  /** The counts and ratios of a prediction. */
  ghost predicate Counted(edges: seq<Edge>, predicted: set<Pair>, positives: set<Pair>, negatives: set<Pair>,
                          r: Counts) {
    && r.truePositive == TruePositives(predicted, positives)
    && r.falsePositive == FalsePositives(predicted, positives, negatives)
    && r.falseNegative == FalseNegatives(predicted, positives)
    && r.falseMerges == |predicted * negatives|
    && r.precision == Ratio(r.truePositive, r.truePositive + r.falsePositive)
    && r.recall == Recall(predicted, positives)
    && r.f1 == HarmonicMean(r.precision, r.recall)
    && r.blockingRecall == BlockingRecall(edges, positives)
  }

  /** The given clusters, or the components of the prediction when there are none. */
  method ClusterRows(clusters: seq<set<Ref>>, predicted: set<Pair>) returns (rows: seq<set<Ref>>)
    ensures if clusters != [] then rows == clusters else Components(predicted, rows)
  {
    rows := clusters;
    if rows == [] {
      var order := Enumerate(predicted);
      rows := FindComponents(order);
    }
  }

  /** The counts and ratios of a prediction, computed. */
  method CountPairs(edges: seq<Edge>, predicted: set<Pair>, positives: set<Pair>, negatives: set<Pair>)
    returns (counts: Counts)
    ensures Counted(edges, predicted, positives, negatives, counts)
  {
    var tp, fp := TruePositives(predicted, positives), FalsePositives(predicted, positives, negatives);
    var fn := FalseNegatives(predicted, positives);
    var precision, recall := Ratio(tp, tp + fp), Ratio(tp, tp + fn);
    counts := Counts(tp, fp, fn, precision, recall, HarmonicMean(precision, recall), BlockingRecall(edges, positives),
                     |predicted * negatives|);
  }

  method Evaluate(edges: seq<Edge>, clusters: seq<set<Ref>>, positives: set<Pair>, negatives: set<Pair>,
                  truth: map<string, set<Ref>>, threshold: real)
    returns (report: Report, rows: seq<set<Ref>>)
    ensures if clusters != [] then rows == clusters else Components(Predicted(edges, threshold), rows)
    ensures Counted(edges, Predicted(edges, threshold), positives, negatives, report.counts)
    ensures Scored(truth, negatives, rows, |rows|, report.clusters)
    ensures report.fragmented == |set id | id in truth && Overlaps(rows, truth[id]) > 1|
  {
    var predicted := Predicted(edges, threshold);
    var counts := CountPairs(edges, predicted, positives, negatives);
    rows := ClusterRows(clusters, predicted);
    var scores := ScoreClusters(rows, truth, negatives);
    var fragmented := FindFragmented(rows, truth);
    report := Report(counts, scores, |fragmented|);
  }

  /** The f1 of a precision and a recall: 0 when both vanish, else their harmonic mean. */
  function HarmonicMean(p: real, r: real): real {
    if p + r != 0.0 then 2.0 * p * r / (p + r) else 0.0
  }

  // ---------------------------------------------------------------- conservation

  /** Every positive is found or missed; every prediction is counted once as right or wrong, and
      a second time exactly when it is labelled both positive and negative. */
  lemma CountsBalance(predicted: set<Pair>, positives: set<Pair>, negatives: set<Pair>)
    ensures TruePositives(predicted, positives) + FalseNegatives(predicted, positives) == |positives|
    ensures TruePositives(predicted, positives) + FalsePositives(predicted, positives, negatives)
         == |predicted| + |predicted * positives * negatives|
  {
    assert positives == (predicted * positives) + (positives - predicted);
    var both, onlyNegative := predicted * positives * negatives, predicted * negatives - positives;
    assert predicted * negatives == both + onlyNegative;
    var rest := predicted - positives - negatives;
    assert predicted == (predicted * positives) + (onlyNegative + rest);
  }

  // ---------------------------------------------------------------- raising the threshold

  lemma HigherThresholdPredictsLess(edges: seq<Edge>, low: real, high: real)
    requires low <= high
    ensures Predicted(edges, high) <= Predicted(edges, low) <= Candidates(edges)
  {}

  lemma RatioMonotone(a: nat, b: nat, whole: nat)
    requires a <= b
    ensures Ratio(a, whole) <= Ratio(b, whole)
  {}

  lemma CountsMonotone(p: set<Pair>, q: set<Pair>, positives: set<Pair>, negatives: set<Pair>)
    requires p <= q
    ensures TruePositives(p, positives) <= TruePositives(q, positives)
    ensures FalsePositives(p, positives, negatives) <= FalsePositives(q, positives, negatives)
    ensures |p * negatives| <= |q * negatives|
    ensures FalseNegatives(p, positives) >= FalseNegatives(q, positives)
  {
    SubsetSize(p * positives, q * positives);
    SubsetSize(p * negatives, q * negatives);
    SubsetSize(p - positives - negatives, q - positives - negatives);
    SubsetSize(positives - q, positives - p);
  }

  lemma RecallMonotone(p: set<Pair>, q: set<Pair>, positives: set<Pair>)
    requires p <= q
    ensures Recall(p, positives) <= Recall(q, positives) <= Ratio(|positives * q|, |positives|)
  {
    RecallIsRatio(p, positives);
    RecallIsRatio(q, positives);
    SubsetSize(positives * p, positives * q);
    RatioMonotone(|positives * p|, |positives * q|, |positives|);
  }

  lemma RecallIsRatio(p: set<Pair>, positives: set<Pair>)
    ensures Recall(p, positives) == Ratio(|positives * p|, |positives|)
  {
    CountsBalance(p, positives, {});
    assert p * positives == positives * p;
  }

  /** Raising the threshold cannot raise true positives, false positives, false merges or recall,
      cannot lower false negatives, and recall stays below the recall of blocking. */
  lemma CountsFallWithThreshold(edges: seq<Edge>, low: real, high: real, positives: set<Pair>, negatives: set<Pair>)
    requires low <= high
    ensures var p, q := Predicted(edges, high), Predicted(edges, low);
            && TruePositives(p, positives) <= TruePositives(q, positives)
            && FalsePositives(p, positives, negatives) <= FalsePositives(q, positives, negatives)
            && |p * negatives| <= |q * negatives|
            && FalseNegatives(p, positives) >= FalseNegatives(q, positives)
            && Recall(p, positives) <= Recall(q, positives) <= BlockingRecall(edges, positives)
  {
    HigherThresholdPredictsLess(edges, low, high);
    var p, q := Predicted(edges, high), Predicted(edges, low);
    CountsMonotone(p, q, positives, negatives);
    RecallMonotone(p, q, positives);
    SubsetSize(positives * q, positives * Candidates(edges));
    RatioMonotone(|positives * q|, |positives * Candidates(edges)|, |positives|);
  }

  /** Raising the threshold refines the clustering: every cluster at the higher threshold lies
      inside one cluster of the lower. */
  lemma ClustersRefine(few: set<Pair>, many: set<Pair>, fine: seq<set<Ref>>, coarse: seq<set<Ref>>, c: set<Ref>)
    requires few <= many && Components(few, fine) && Components(many, coarse) && c in fine
    ensures exists d | d in coarse :: c <= d
  {
    var x :| x in c;
    assert Together(fine, x, x);
    Covers(few, fine, x);
    Covers(many, coarse, x);
    assert x in Covered(few) && x in Covered(many);
    assert Together(coarse, x, x);
    var d :| d in coarse && x in d;
    forall y | y in c ensures y in d {
      Joins(few, fine, x, y);
      Joins(many, coarse, x, y);
      assert Together(fine, x, y) && Connected(few, x, y);
      ConnectedGrows(few, many, x, y);
      assert Together(coarse, x, y);
      var e :| e in coarse && x in e && y in e;
      SameBlock(coarse, d, e, x);
    }
  }

  lemma LargestClusterFalls(edges: seq<Edge>, low: real, high: real, fine: seq<set<Ref>>, coarse: seq<set<Ref>>,
                            m: nat, n: nat)
    requires low <= high
    requires Components(Predicted(edges, high), fine) && Components(Predicted(edges, low), coarse)
    requires IsLargest(m, fine, Rows(fine, |fine|)) && IsLargest(n, coarse, Rows(coarse, |coarse|))
    ensures m <= n
  {
    HigherThresholdPredictsLess(edges, low, high);
    if m != 0 {
      var i :| i in Rows(fine, |fine|) && |fine[i]| == m;
      ClustersRefine(Predicted(edges, high), Predicted(edges, low), fine, coarse, fine[i]);
      var d :| d in coarse && fine[i] <= d;
      var j :| 0 <= j < |coarse| && coarse[j] == d;
      assert j in Rows(coarse, |coarse|);
      SubsetSize(fine[i], d);
    }
  }

  // ---------------------------------------------------------------- contamination and fragmentation

  ghost predicate DisjointEntities(truth: map<string, set<Ref>>) {
    forall a, b | a in truth && b in truth && a != b :: truth[a] !! truth[b]
  }

  ghost predicate InOneEntity(truth: map<string, set<Ref>>, p: set<Ref>) {
    exists id | id in truth :: p <= truth[id]
  }

  /** If every pair stays inside one entity, so does every path that starts in one. */
  lemma {:induction false} PathStaysInEntity(pairs: set<Pair>, truth: map<string, set<Ref>>, path: seq<Ref>, id: string)
    requires DisjointEntities(truth) && forall p | p in pairs :: InOneEntity(truth, p)
    requires path != [] && id in truth && path[0] in truth[id]
    requires forall i | 0 <= i < |path| - 1 :: Hop(pairs, path, i)
    ensures path[|path| - 1] in truth[id]
  {
    if |path| > 1 {
      assert Hop(pairs, path, 0);
      var p :| p in pairs && path[0] in p && path[1] in p;
      var other :| other in truth && p <= truth[other];
      assert other == id;
      forall i | 0 <= i < |path[1..]| - 1 ensures Hop(pairs, path[1..], i) { assert Hop(pairs, path, i + 1); }
      PathStaysInEntity(pairs, truth, path[1..], id);
    }
  }

  /** A cluster that hits two entities is some predicted pair's fault: one that no entity contains. */
  lemma ContaminationHasCulprit(pairs: set<Pair>, truth: map<string, set<Ref>>, rows: seq<set<Ref>>,
                                c: set<Ref>, a: string, b: string)
    requires Components(pairs, rows) && DisjointEntities(truth)
    requires c in rows && a in Hits(truth, c) && b in Hits(truth, c) && a != b
    ensures exists p | p in pairs :: !InOneEntity(truth, p)
  {
    if forall p | p in pairs :: InOneEntity(truth, p) {
      var x :| x in c * truth[a];
      var y :| y in c * truth[b];
      assert Together(rows, x, x) && Together(rows, x, y);
      Covers(pairs, rows, x);
      Joins(pairs, rows, x, y);
      var path :| Path(pairs, path, x, y);
      PathStaysInEntity(pairs, truth, path, a);
      assert false;
    }
  }

  /** `_pairs_from_entities`: every two positions of an entity's record list. */
  function PairsFromEntities(entities: seq<seq<Ref>>): set<Pair> {
    set e, i, j | e in entities && 0 <= i < j < |e| :: MakePair(e[i], e[j])
  }

  lemma {:induction false} OverlapsTwice(rows: seq<set<Ref>>, refs: set<Ref>)
    ensures Overlaps(rows, refs) > 0 <==> exists i | 0 <= i < |rows| :: refs * rows[i] != {}
    ensures Overlaps(rows, refs) > 1
       <==> exists i, j | 0 <= i < j < |rows| :: refs * rows[i] != {} && refs * rows[j] != {}
  {
    if rows != [] {
      var rest := rows[1..];
      OverlapsTwice(rest, refs);
      assert forall i | 0 <= i < |rest| :: rest[i] == rows[i + 1];
      assert forall i | 0 < i < |rows| :: rows[i] == rest[i - 1];
    }
  }

  /** Predicting every within-entity pair leaves no entity fragmented. */
  lemma CompletePredictionsNeverFragment(pairs: set<Pair>, entities: seq<seq<Ref>>, rows: seq<set<Ref>>, e: seq<Ref>)
    requires Components(pairs, rows) && PairsFromEntities(entities) <= pairs && e in entities
    ensures Overlaps(rows, set x | x in e) <= 1
  {
    var refs := set x | x in e;
    OverlapsTwice(rows, refs);
    forall i, j | 0 <= i < j < |rows| && refs * rows[i] != {} && refs * rows[j] != {} ensures false {
      var x :| x in refs * rows[i];
      var y :| y in refs * rows[j];
      assert x != y by { assert rows[i] !! rows[j]; }
      var k :| 0 <= k < |e| && e[k] == x;
      var l :| 0 <= l < |e| && e[l] == y;
      assert MakePair(x, y) in PairsFromEntities(entities) by {
        assert MakePair(e[k], e[l]) == MakePair(e[l], e[k]);
      }
      LinkConnects(pairs, MakePair(x, y), x, y);
      assert Together(rows, x, x);
      Covers(pairs, rows, x);
      Joins(pairs, rows, x, y);
      var c :| c in rows && x in c && y in c;
      var d, f := rows[i], rows[j];
      SameBlock(rows, c, d, x);
      SameBlock(rows, c, f, y);
    }
  }

  // ---------------------------------------------------------------- the scores in the columns

  /** A pair is predicted exactly if some edge between its two records reaches the threshold. */
  lemma PredictedExactly(edges: seq<Edge>, threshold: real, x: Ref, y: Ref)
    ensures {x, y} in Predicted(edges, threshold)
       <==> exists e | e in edges :: {e.left, e.right} == {x, y} && threshold <= e.probability
  {}

  /** A cluster is contaminated exactly if it meets two entities, or holds both ends of a pair that is
      labelled as not matching. */
  lemma ContaminatedExactly(truth: map<string, set<Ref>>, negatives: set<Pair>, refs: set<Ref>)
    ensures Contaminated(truth, negatives, refs)
       <==> || (exists a, b | a in truth && b in truth :: a != b && refs * truth[a] != {} && refs * truth[b] != {})
            || (exists x, y | x in refs && y in refs :: x != y && {x, y} in negatives)
  {
    var hits := Hits(truth, refs);
    if a, b :| a in truth && b in truth && a != b && refs * truth[a] != {} && refs * truth[b] != {} {
      Subset2(hits, a, b);
    }
    if |hits| > 1 {
      var a :| a in hits;
      assert |hits - {a}| >= 1;
      var b :| b in hits - {a};
      assert refs * truth[a] != {} && refs * truth[b] != {};
    }
    forall x, y | x in refs && y in refs ensures MakePair(x, y) == {x, y} {}
  }

  lemma Subset2<T>(s: set<T>, a: T, b: T)
    requires a in s && b in s && a != b
    ensures |s| > 1
  {
    SubsetSize({a, b}, s);
  }

  /** The reported counts, each by itself: found, wrong, missed and wrongly merged pairs. */
  lemma CountsExactly(edges: seq<Edge>, predicted: set<Pair>, positives: set<Pair>, negatives: set<Pair>, r: Counts)
    requires Counted(edges, predicted, positives, negatives, r)
    ensures r.truePositive == |set p | p in predicted && p in positives|
    ensures r.falsePositive == |set p | p in predicted && p in negatives|
                               + |set p | p in predicted && p !in positives && p !in negatives|
    ensures r.falseNegative == |set p | p in positives && p !in predicted|
    ensures r.falseMerges == |set p | p in predicted && p in negatives|
  {
    BothSets(predicted, positives);
    BothSets(predicted, negatives);
    OnlyFirst(predicted, positives, negatives);
    OnlyFirst(positives, predicted, {});
  }

  lemma BothSets(a: set<Pair>, b: set<Pair>)
    ensures (set p | p in a && p in b) == a * b
  {}

  lemma OnlyFirst(a: set<Pair>, b: set<Pair>, c: set<Pair>)
    ensures (set p | p in a && p !in b && p !in c) == a - b - c
    ensures (set p | p in a && p !in b) == a - b
  {}

  lemma RatioTimesWhole(part: nat, whole: nat)
    requires part <= whole
    ensures Ratio(part, whole) * whole as real == part as real
  {}

  /** `p` and `r` are the shares of `t` in `m` and in `n`: the harmonic mean is that of 2 t in m + n. */
  lemma MeanOfShares(t: real, m: real, n: real, p: real, r: real)
    requires 0.0 < t <= m && t <= n && p * m == t && r * n == t
    ensures HarmonicMean(p, r) * (m + n) == 2.0 * t
  {
    ShareIsPositive(p, m, t);
    ShareIsPositive(r, n, t);
    var f := HarmonicMean(p, r);
    assert f * (p + r) == 2.0 * p * r;
    calc {
      (f * (m + n)) * t;
      f * (m * t + n * t);
      { assert m * t == m * (r * n) && n * t == n * (p * m); }
      f * (m * (r * n) + n * (p * m));
      { assert m * (r * n) == r * (m * n) && n * (p * m) == p * (m * n); }
      f * (r * (m * n) + p * (m * n));
      { assert r * (m * n) + p * (m * n) == (p + r) * (m * n); }
      f * ((p + r) * (m * n));
      { assert f * ((p + r) * (m * n)) == (f * (p + r)) * (m * n); }
      (2.0 * p * r) * (m * n);
      { assert (2.0 * p * r) * (m * n) == 2.0 * ((p * m) * (r * n)); }
      2.0 * (t * t);
      (2.0 * t) * t;
    }
    Cancel(f * (m + n), 2.0 * t, t);
  }

  lemma ShareIsPositive(p: real, m: real, t: real)
    requires 0.0 < t && 0.0 < m && p * m == t
    ensures 0.0 < p
  {}

  lemma Cancel(x: real, y: real, t: real)
    requires t > 0.0 && x * t == y * t
    ensures x == y
  {}

  lemma F1Exactly(tp: nat, m: nat, n: nat)
    requires tp <= m && tp <= n
    ensures HarmonicMean(Ratio(tp, m), Ratio(tp, n)) * (m + n) as real == (2 * tp) as real
  {
    RatioTimesWhole(tp, m);
    RatioTimesWhole(tp, n);
    if tp > 0 {
      MeanOfShares(tp as real, m as real, n as real, Ratio(tp, m), Ratio(tp, n));
    } else {
      assert Ratio(tp, m) == Ratio(tp, n) == 0.0;
    }
  }

  /** `p` is the share of tp in tp + fp, `r` in tp + fn, and `f` that of 2 tp in 2 tp + fp + fn. */
  ghost predicate Shares(tp: nat, fp: nat, fn: nat, p: real, r: real, f: real) {
    && p * (tp + fp) as real == tp as real && r * (tp + fn) as real == tp as real
    && f * (2 * tp + fp + fn) as real == (2 * tp) as real
    && (tp == 0 ==> p == 0.0 && r == 0.0 && f == 0.0)
  }

  lemma SharesFrom(tp: nat, fp: nat, fn: nat)
    ensures Shares(tp, fp, fn, Ratio(tp, tp + fp), Ratio(tp, tp + fn),
                   HarmonicMean(Ratio(tp, tp + fp), Ratio(tp, tp + fn)))
  {
    RatioTimesWhole(tp, tp + fp);
    RatioTimesWhole(tp, tp + fn);
    F1Exactly(tp, tp + fp, tp + fn);
    assert tp + fp + (tp + fn) == 2 * tp + fp + fn;
  }

  lemma RecallOfCounts(edges: seq<Edge>, predicted: set<Pair>, positives: set<Pair>, negatives: set<Pair>, r: Counts)
    requires Counted(edges, predicted, positives, negatives, r)
    ensures r.recall == Ratio(r.truePositive, r.truePositive + r.falseNegative)
  {}

  /** Precision and recall are the shares of the true positives in what was predicted and in what was to be
      found; f1 is the share of 2 tp in 2 tp + fp + fn. */
  lemma RatiosExactly(edges: seq<Edge>, predicted: set<Pair>, positives: set<Pair>, negatives: set<Pair>, r: Counts)
    requires Counted(edges, predicted, positives, negatives, r)
    ensures Shares(r.truePositive, r.falsePositive, r.falseNegative, r.precision, r.recall, r.f1)
  {
    RecallOfCounts(edges, predicted, positives, negatives, r);
    SharesFrom(r.truePositive, r.falsePositive, r.falseNegative);
  }

  /** Blocking recall is the share of the positives that are candidates; it is 1 exactly if all are. */
  lemma BlockingExactly(edges: seq<Edge>, positives: set<Pair>)
    requires positives != {}
    ensures BlockingRecall(edges, positives) * |positives| as real == |positives * Candidates(edges)| as real
    ensures BlockingRecall(edges, positives) == 1.0 <==> positives <= Candidates(edges)
  {
    var found := positives * Candidates(edges);
    SubsetSize(found, positives);
    RatioTimesWhole(|found|, |positives|);
    if |found| == |positives| {
      assert |positives - found| == 0;
      assert positives == found;
    }
    if positives <= Candidates(edges) { assert found == positives; }
  }

  /** What the cluster scores say: how many clusters are contaminated, which entities they touch, and how
      large the largest of them and the largest of all are. */
  lemma ScoresExactly(truth: map<string, set<Ref>>, negatives: set<Pair>, rows: seq<set<Ref>>, t: Scores)
    requires Scored(truth, negatives, rows, |rows|, t)
    ensures t.contaminated == |set i: nat | i < |rows| && Contaminated(truth, negatives, rows[i])|
    ensures forall id :: id in t.ids <==>
              id in truth && exists i: nat | i < |rows| ::
                Contaminated(truth, negatives, rows[i]) && rows[i] * truth[id] != {}
    ensures forall i: nat | i < |rows| :: |rows[i]| <= t.largest
    ensures t.largest == 0 || exists i: nat | i < |rows| :: |rows[i]| == t.largest
    ensures forall i: nat | i < |rows| && Contaminated(truth, negatives, rows[i]) :: |rows[i]| <= t.largestContaminated
    ensures t.largestContaminated == 0
            || exists i: nat | i < |rows| ::
                 Contaminated(truth, negatives, rows[i]) && |rows[i]| == t.largestContaminated
  {
    var chosen := ContaminatedRows(truth, negatives, rows, |rows|);
    forall id ensures id in t.ids <==>
              id in truth && exists i: nat | i < |rows| ::
                Contaminated(truth, negatives, rows[i]) && rows[i] * truth[id] != {}
    {
      if id in t.ids {
        var i :| i in chosen && id in Hits(truth, rows[i]);
        assert Contaminated(truth, negatives, rows[i]);
      }
      if id in truth {
        if i: nat :| i < |rows| && Contaminated(truth, negatives, rows[i]) && rows[i] * truth[id] != {} {
          assert i in chosen && id in Hits(truth, rows[i]);
        }
      }
    }
    forall i: nat | i < |rows| ensures |rows[i]| <= t.largest { assert i in Rows(rows, |rows|); }
    forall i: nat | i < |rows| && Contaminated(truth, negatives, rows[i]) ensures |rows[i]| <= t.largestContaminated {
      assert i in chosen;
    }
  }
}
