/** Schema-matching evaluation (tools/evaluate_schema_matching.py): candidates are ranked per source
    column by their best native score, and recall at k and the mean reciprocal rank are reported. */
module Ranking {
  import opened Common
  import opened Text
  import opened Sorting

  datatype Candidate = Candidate(source: string, target: string, scoreRefs: seq<string>)

  datatype Row = Row(score: real, target: string)

  datatype Link = Link(left: string, right: string)

  /** `scores` holds the raw scores of the chosen matcher by score id. */
  type ScoreMap = map<string, real>

  /** The best raw score among the references the matcher knows. */
  function Best(scores: ScoreMap, refs: seq<string>): Option<real> {
    if refs == [] then None
    else
      var rest := Best(scores, refs[1..]);
      if refs[0] in scores && (rest == None || scores[refs[0]] >= rest.value) then Some(scores[refs[0]]) else rest
  }

  /** The rows one candidate contributes to `left`: none when no reference is known. */
  function RowOf(scores: ScoreMap, c: Candidate, left: string): seq<Row> {
    var best := Best(scores, c.scoreRefs);
    if c.source == left && best.Some? then [Row(best.value, c.target)] else []
  }

  function RowsFor(scores: ScoreMap, candidates: seq<Candidate>, left: string): seq<Row> {
    if candidates == [] then []
    else RowsFor(scores, candidates[..|candidates| - 1], left) + RowOf(scores, candidates[|candidates| - 1], left)
  }

  /** Highest score first, ties by target text. */
  const RANKED: (Row, Row) -> bool :=
    (a: Row, b: Row) => a.score > b.score || (a.score == b.score && LexLe(a.target, b.target))

  lemma RankedOrder()
    ensures TotalOrder(RANKED)
  {
    forall a, b ensures RANKED(a, b) || RANKED(b, a) { LexTotal(a.target, b.target); }
    forall a, b | RANKED(a, b) && RANKED(b, a) ensures a == b { LexAntisymmetric(a.target, b.target); }
    forall a, b, c | RANKED(a, b) && RANKED(b, c) ensures RANKED(a, c) {
      if LexLe(a.target, b.target) && LexLe(b.target, c.target) { LexTransitive(a.target, b.target, c.target); }
    }
  }

  function Targets(rows: seq<Row>): seq<string> { seq(|rows|, i requires 0 <= i < |rows| => rows[i].target) }

  /** The ranked targets of one source column. */
  function Ranked(scores: ScoreMap, candidates: seq<Candidate>, left: string): seq<string> {
    Targets(Sort(RANKED, RowsFor(scores, candidates, left)))
  }

  /** 1-based position of the first occurrence, 0 when there is none. */
  function Rank(ranked: seq<string>, right: string): (r: nat)
    ensures r <= |ranked|
    ensures r == 0 <==> right !in ranked
    ensures r > 0 ==> ranked[r - 1] == right && right !in ranked[..r - 1]
  {
    if ranked == [] then 0
    else if ranked[0] == right then 1
    else
      var rest := Rank(ranked[1..], right);
      assert ranked == [ranked[0]] + ranked[1..];
      assert rest > 0 ==> ranked[..rest] == [ranked[0]] + ranked[1..][..rest - 1];
      if rest == 0 then 0 else rest + 1
  }

  function Reciprocal(rank: nat): real { if rank == 0 then 0.0 else 1.0 / rank as real }

  function Top(ranked: seq<string>, k: nat): seq<string> { if k <= |ranked| then ranked[..k] else ranked }

  // ---------------------------------------------------------------- the reported metrics

  /** The links whose right column is among the first k ranked targets of their left column. */
  function Hits(scores: ScoreMap, candidates: seq<Candidate>, links: set<Link>, k: nat): set<Link> {
    set t | t in links && t.right in Top(Ranked(scores, candidates, t.left), k)
  }

  /** The rank of every truth link. */
  function Ranks(scores: ScoreMap, candidates: seq<Candidate>, links: set<Link>): map<Link, nat> {
    map t | t in links :: Rank(Ranked(scores, candidates, t.left), t.right)
  }

  function HitsAt(ranks: map<Link, nat>, k: nat): set<Link> { set t | t in ranks && 0 < ranks[t] <= k }

  function RecallAt(ranks: map<Link, nat>, k: nat): real {
    if ranks == map[] then 0.0 else |HitsAt(ranks, k)| as real / |ranks| as real
  }

  ghost function SumReciprocal(ranks: map<Link, nat>): real
    decreases |ranks|
  {
    if ranks == map[] then 0.0
    else
      var t :| t in ranks;
      Reciprocal(ranks[t]) + SumReciprocal(ranks - {t})
  }

  ghost function MeanReciprocalRank(ranks: map<Link, nat>): real {
    if ranks == map[] then 0.0 else SumReciprocal(ranks) / |ranks| as real
  }

  // ---------------------------------------------------------------- recall at k against MRR

  /** A link is hit at k exactly when it has a rank and the rank is at most k. */
  lemma TopIsRank(ranked: seq<string>, right: string, k: nat)
    ensures right in Top(ranked, k) <==> 0 < Rank(ranked, right) <= k
  {
    var r := Rank(ranked, right);
    if right in Top(ranked, k) {
      var i :| 0 <= i < |Top(ranked, k)| && ranked[i] == right;
    }
    if 0 < r <= k { assert Top(ranked, k)[r - 1] == right; }
  }

  /** The hits of the source's slice are the hits of the rank table. */
  lemma HitsAreRanked(scores: ScoreMap, candidates: seq<Candidate>, links: set<Link>, k: nat)
    ensures Hits(scores, candidates, links, k) == HitsAt(Ranks(scores, candidates, links), k)
  {
    forall t | t in links
      ensures t.right in Top(Ranked(scores, candidates, t.left), k)
         <==> 0 < Rank(Ranked(scores, candidates, t.left), t.right) <= k
    {
      TopIsRank(Ranked(scores, candidates, t.left), t.right, k);
    }
  }

  lemma ReciprocalBounds(rank: nat, k: nat)
    requires k >= 1
    ensures if 0 < rank <= k then 1.0 / k as real <= Reciprocal(rank) <= 1.0
            else 0.0 <= Reciprocal(rank) <= 1.0 / (k + 1) as real
  {
    if 0 < rank <= k {
      ReciprocalAntitone(rank, k);
      ReciprocalAntitone(1, rank);
    } else if rank > k {
      ReciprocalAntitone(k + 1, rank);
    }
  }

  lemma MulLe(x: real, y: real, z: real)
    requires x <= y && 0.0 <= z
    ensures x * z <= y * z
  {}

  lemma DivLe(x: real, y: real, n: real)
    requires x <= y && 0.0 < n
    ensures x / n <= y / n
  {
    MulLe(x, y, 1.0 / n);
    assert x / n == x * (1.0 / n) && y / n == y * (1.0 / n);
  }

  lemma ReciprocalAntitone(m: nat, n: nat)
    requires 0 < m <= n
    ensures 0.0 < 1.0 / n as real <= 1.0 / m as real
  {
    var x, y := m as real, n as real;
    DivLe(x, y, x);
    DivLe(1.0, y / x, y);
    assert (y / x) / y == 1.0 / x;
  }

  lemma TableStep(ranks: map<Link, nat>, k: nat, t: Link)
    requires t in ranks
    ensures |ranks| == |ranks - {t}| + 1
    ensures |HitsAt(ranks, k)| == |HitsAt(ranks - {t}, k)| + (if 0 < ranks[t] <= k then 1 else 0)
  {
    var rest, all := HitsAt(ranks - {t}, k), HitsAt(ranks, k);
    assert all == if 0 < ranks[t] <= k then rest + {t} else rest;
    assert ranks.Keys == (ranks - {t}).Keys + {t};
    assert |ranks| == |ranks.Keys| && |ranks - {t}| == |(ranks - {t}).Keys|;
  }

  /** n times a, as a sum. */
  function Times(n: nat, a: real): real { if n == 0 then 0.0 else Times(n - 1, a) + a }

  lemma {:induction false} TimesIsProduct(n: nat, a: real)
    ensures Times(n, a) == n as real * a
  {
    if n > 0 {
      TimesIsProduct(n - 1, a);
      assert n as real * a == (n - 1) as real * a + a;
    }
  }

  /** `h` hits worth between a and 1 each and `n - h` misses worth at most b each. */
  ghost predicate Bounded(s: real, h: nat, n: nat, a: real, b: real) {
    h <= n && Times(h, a) <= s <= h as real + Times(n - h, b)
  }

  /** One more link: the bounds move by the bounds of its reciprocal rank. */
  lemma BoundStep(h: nat, n: nat, s: real, x: real, a: real, b: real, hit: bool)
    requires Bounded(s, h, n, a, b)
    requires if hit then a <= x <= 1.0 else 0.0 <= x <= b
    ensures Bounded(s + x, if hit then h + 1 else h, n + 1, a, b)
  {}

  ghost predicate Worth(rank: nat, k: nat, a: real, b: real) {
    if 0 < rank <= k then a <= Reciprocal(rank) <= 1.0 else 0.0 <= Reciprocal(rank) <= b
  }

  lemma SumBoundsStep(ranks: map<Link, nat>, t: Link, k: nat, a: real, b: real)
    requires t in ranks && Worth(ranks[t], k, a, b)
    requires Bounded(SumReciprocal(ranks - {t}), |HitsAt(ranks - {t}, k)|, |ranks - {t}|, a, b)
    ensures Bounded(SumReciprocal(ranks), |HitsAt(ranks, k)|, |ranks|, a, b)
  {
    SumStep(ranks, t);
    TableStep(ranks, k, t);
    BoundStep(|HitsAt(ranks - {t}, k)|, |ranks - {t}|, SumReciprocal(ranks - {t}), Reciprocal(ranks[t]),
              a, b, 0 < ranks[t] <= k);
  }

  /** The sum over the truth links in terms of how many are hit at k. */
  lemma {:induction false} SumBounds(ranks: map<Link, nat>, k: nat, a: real, b: real)
    requires forall t | t in ranks :: Worth(ranks[t], k, a, b)
    ensures Bounded(SumReciprocal(ranks), |HitsAt(ranks, k)|, |ranks|, a, b)
    decreases |ranks|
  {
    if ranks == map[] {
      assert HitsAt(ranks, k) == {};
    } else {
      var t :| t in ranks;
      TableStep(ranks, k, t);
      SumBounds(ranks - {t}, k, a, b);
      SumBoundsStep(ranks, t, k, a, b);
    }
  }

  /** Recall never falls as k grows, recall at 1 never exceeds the mean reciprocal rank, and
      recall@k / k <= MRR <= recall@k + (1 - recall@k) / (k + 1). */
  lemma RecallAgainstMrr(ranks: map<Link, nat>, k: nat, l: nat)
    requires 1 <= k <= l
    ensures var r, m := RecallAt(ranks, k), MeanReciprocalRank(ranks);
            && 0.0 <= r <= RecallAt(ranks, l) <= 1.0
            && RecallAt(ranks, 1) <= m
            && r / k as real <= m <= r + (1.0 - r) / (k + 1) as real
  {
    RecallGrows(ranks, k, l);
    if ranks == map[] {
      ReciprocalAntitone(k + 1, k + 1);
    } else {
      DividedBounds(ranks, k);
      DividedBounds(ranks, 1);
    }
  }

  lemma RecallGrows(ranks: map<Link, nat>, k: nat, l: nat)
    requires k <= l
    ensures 0.0 <= RecallAt(ranks, k) <= RecallAt(ranks, l) <= 1.0
  {
    SubsetSize(HitsAt(ranks, k), HitsAt(ranks, l));
    SubsetSize(HitsAt(ranks, l), ranks.Keys);
    if ranks != map[] {
      var n := |ranks| as real;
      DivLe(0.0, |HitsAt(ranks, k)| as real, n);
      DivLe(|HitsAt(ranks, k)| as real, |HitsAt(ranks, l)| as real, n);
      DivLe(|HitsAt(ranks, l)| as real, n, n);
    }
  }

  lemma SumBoundsAt(ranks: map<Link, nat>, k: nat)
    requires k >= 1
    ensures Bounded(SumReciprocal(ranks), |HitsAt(ranks, k)|, |ranks|, 1.0 / k as real, 1.0 / (k + 1) as real)
  {
    var a, b := 1.0 / k as real, 1.0 / (k + 1) as real;
    forall t | t in ranks ensures Worth(ranks[t], k, a, b) { ReciprocalBounds(ranks[t], k); }
    SumBounds(ranks, k, a, b);
  }

  lemma DividedBounds(ranks: map<Link, nat>, k: nat)
    requires k >= 1 && ranks != map[]
    ensures var r, m := RecallAt(ranks, k), MeanReciprocalRank(ranks);
            r / k as real <= m <= r + (1.0 - r) / (k + 1) as real
  {
    SumBoundsAt(ranks, k);
    TimesIsProduct(|HitsAt(ranks, k)|, 1.0 / k as real);
    TimesIsProduct(|ranks| - |HitsAt(ranks, k)|, 1.0 / (k + 1) as real);
    LowerQuotient(|HitsAt(ranks, k)| as real, |ranks| as real, SumReciprocal(ranks), k as real);
    UpperQuotient(|HitsAt(ranks, k)| as real, |ranks| as real, SumReciprocal(ranks), (k + 1) as real);
  }

  lemma LowerQuotient(h: real, n: real, s: real, k: real)
    requires n > 0.0 && k > 0.0 && h * (1.0 / k) <= s
    ensures (h / n) / k <= s / n
  {
    DivLe(h * (1.0 / k), s, n);
    assert (h * (1.0 / k)) / n == (h / n) / k;
  }

  lemma UpperQuotient(h: real, n: real, s: real, l: real)
    requires n > 0.0 && l > 0.0 && s <= h + (n - h) * (1.0 / l)
    ensures s / n <= h / n + (1.0 - h / n) / l
  {
    DivLe(s, h + (n - h) * (1.0 / l), n);
    SplitQuotient(h, n, l);
  }

  lemma SplitQuotient(h: real, n: real, l: real)
    requires n > 0.0 && l > 0.0
    ensures (h + (n - h) * (1.0 / l)) / n == h / n + (1.0 - h / n) / l
  {
    var r := h / n;
    assert h == r * n;
    assert n - h == (1.0 - r) * n;
    assert (n - h) * (1.0 / l) == ((1.0 - r) / l) * n;
    assert h + (n - h) * (1.0 / l) == (r + (1.0 - r) / l) * n;
  }

  // ---------------------------------------------------------------- the input order

  lemma {:induction false} RowsOfConcat(scores: ScoreMap, a: seq<Candidate>, b: seq<Candidate>, left: string)
    ensures RowsFor(scores, a + b, left) == RowsFor(scores, a, left) + RowsFor(scores, b, left)
  {
    if b == [] {
      assert a + b == a;
    } else {
      assert (a + b)[..|a + b| - 1] == a + b[..|b| - 1];
      RowsOfConcat(scores, a, b[..|b| - 1], left);
    }
  }

  lemma RowsOfOne(scores: ScoreMap, c: Candidate, left: string)
    ensures RowsFor(scores, [c], left) == RowOf(scores, c, left)
  {
    assert [c][..0] == [];
  }

  lemma RowsWithout(scores: ScoreMap, b: seq<Candidate>, k: nat, left: string)
    requires k < |b|
    ensures multiset(RowsFor(scores, b, left))
         == multiset(RowOf(scores, b[k], left)) + multiset(RowsFor(scores, Without(b, k), left))
  {
    assert b == b[..k] + ([b[k]] + b[k + 1..]);
    RowsOfConcat(scores, b[..k], [b[k]] + b[k + 1..], left);
    RowsOfConcat(scores, [b[k]], b[k + 1..], left);
    RowsOfOne(scores, b[k], left);
    RowsOfConcat(scores, b[..k], b[k + 1..], left);
  }

  lemma {:induction false} RowsSameMultiset(scores: ScoreMap, a: seq<Candidate>, b: seq<Candidate>, left: string)
    requires multiset(a) == multiset(b)
    ensures multiset(RowsFor(scores, a, left)) == multiset(RowsFor(scores, b, left))
  {
    assert |a| == |multiset(a)| == |multiset(b)| == |b|;
    if a != [] {
      assert a[0] in multiset(b);
      var k :| 0 <= k < |b| && b[k] == a[0];
      RestMultiset(a, b, k);
      RowsSameMultiset(scores, a[1..], Without(b, k), left);
      RowsWithout(scores, a, 0, left);
      RowsWithout(scores, b, k, left);
      assert Without(a, 0) == a[1..];
    }
  }

  /** The order in which candidates arrive changes no ranking, and so no rank and no metric. */
  lemma RankingOrderFree(scores: ScoreMap, a: seq<Candidate>, b: seq<Candidate>, left: string)
    requires multiset(a) == multiset(b)
    ensures Ranked(scores, a, left) == Ranked(scores, b, left)
  {
    RowsSameMultiset(scores, a, b, left);
    RankedOrder();
    SortSame(RANKED, RowsFor(scores, a, left), RowsFor(scores, b, left));
  }

  lemma RanksOrderFree(scores: ScoreMap, a: seq<Candidate>, b: seq<Candidate>, truth: set<Link>)
    requires multiset(a) == multiset(b)
    ensures Ranks(scores, a, truth) == Ranks(scores, b, truth)
  {
    forall t | t in truth ensures Ranked(scores, a, t.left) == Ranked(scores, b, t.left) {
      RankingOrderFree(scores, a, b, t.left);
    }
  }

  /** The sum does not depend on which link is taken first. */
  lemma {:induction false} SumStep(ranks: map<Link, nat>, t: Link)
    requires t in ranks
    ensures SumReciprocal(ranks) == Reciprocal(ranks[t]) + SumReciprocal(ranks - {t})
    decreases |ranks|
  {
    var u :| u in ranks && SumReciprocal(ranks) == Reciprocal(ranks[u]) + SumReciprocal(ranks - {u});
    if u != t {
      TableStep(ranks, 0, u);
      TableStep(ranks, 0, t);
      SumStep(ranks - {u}, t);
      SumStep(ranks - {t}, u);
      assert ranks - {u} - {t} == ranks - {t} - {u};
    }
  }

  // ---------------------------------------------------------------- what the ranking is

  /** `best` is the greatest raw score among the references that are known. */
  ghost predicate IsBest(scores: ScoreMap, refs: seq<string>, best: real) {
    && (exists ref | ref in refs :: ref in scores && scores[ref] == best)
    && (forall ref | ref in refs && ref in scores :: scores[ref] <= best)
  }

  /** A candidate has a best score exactly if one of its references is known, and it is the maximum. */
  lemma {:induction false} BestIsMaximum(scores: ScoreMap, refs: seq<string>)
    ensures Best(scores, refs).Some? <==> exists ref | ref in refs :: ref in scores
    ensures forall best :: Best(scores, refs) == Some(best) <==> IsBest(scores, refs, best)
  {
    if refs != [] {
      var rest := refs[1..];
      BestIsMaximum(scores, rest);
      forall ref ensures ref in refs <==> ref == refs[0] || ref in rest {}
      forall best ensures Best(scores, refs) == Some(best) <==> IsBest(scores, refs, best) {
        BestStep(scores, refs, best);
      }
    }
  }

  lemma BestStep(scores: ScoreMap, refs: seq<string>, best: real)
    requires refs != [] && forall x :: Best(scores, refs[1..]) == Some(x) <==> IsBest(scores, refs[1..], x)
    requires Best(scores, refs[1..]).Some? <==> exists ref | ref in refs[1..] :: ref in scores
    ensures Best(scores, refs) == Some(best) <==> IsBest(scores, refs, best)
  {
    var head, rest := refs[0], refs[1..];
    forall ref ensures ref in refs <==> ref == head || ref in rest {}
    var b := Best(scores, rest);
    if b.Some? { assert IsBest(scores, rest, b.value); }
    if head in scores { assert head in refs; }
  }

  /** The candidate is one of the column's and is ranked with this row. */
  ghost predicate RankedAs(scores: ScoreMap, c: Candidate, left: string, row: Row) {
    c.source == left && c.target == row.target && IsBest(scores, c.scoreRefs, row.score)
  }

  /** The first `n` candidates that are ranked with this row. */
  ghost function RankedWith(scores: ScoreMap, candidates: seq<Candidate>, left: string, row: Row, n: nat): set<nat>
    requires n <= |candidates|
  {
    set i: nat | i < n && RankedAs(scores, candidates[i], left, row)
  }

  /** Every candidate of the column with a known score has its row, and there are no others. */
  ghost predicate HoldsCandidates(scores: ScoreMap, candidates: seq<Candidate>, left: string, rows: seq<Row>) {
    forall row :: multiset(rows)[row] == |RankedWith(scores, candidates, left, row, |candidates|)|
  }

  /** The scores never rise, and equal scores come in text order of their targets. */
  ghost predicate Descends(rows: seq<Row>) {
    forall i, j | 0 <= i < j < |rows| ::
      rows[i].score > rows[j].score || (rows[i].score == rows[j].score && LexLe(rows[i].target, rows[j].target))
  }

  ghost predicate IsRanking(scores: ScoreMap, candidates: seq<Candidate>, left: string, rows: seq<Row>) {
    HoldsCandidates(scores, candidates, left, rows) && Descends(rows)
  }

  lemma RowOfCounts(scores: ScoreMap, c: Candidate, left: string, row: Row)
    ensures multiset(RowOf(scores, c, left))[row] == if RankedAs(scores, c, left, row) then 1 else 0
  {
    BestIsMaximum(scores, c.scoreRefs);
  }

  lemma RowsCountStep(scores: ScoreMap, candidates: seq<Candidate>, left: string, row: Row, n: nat)
    requires n < |candidates|
    ensures multiset(RowsFor(scores, candidates[..n + 1], left))[row]
         == multiset(RowsFor(scores, candidates[..n], left))[row]
            + (if RankedAs(scores, candidates[n], left, row) then 1 else 0)
  {
    assert candidates[..n + 1] == candidates[..n] + [candidates[n]];
    RowsSnoc(scores, candidates[..n], candidates[n], left);
    RowOfCounts(scores, candidates[n], left, row);
  }

  /** How often the row stands among the rows of the first `n` candidates. */
  ghost function RowTimes(scores: ScoreMap, candidates: seq<Candidate>, left: string, row: Row, n: nat): nat
    requires n <= |candidates|
  {
    multiset(RowsFor(scores, candidates[..n], left))[row]
  }

  ghost predicate CountsAgree(scores: ScoreMap, candidates: seq<Candidate>, left: string, row: Row, n: nat)
    requires n <= |candidates|
  {
    RowTimes(scores, candidates, left, row, n) == |RankedWith(scores, candidates, left, row, n)|
  }

  lemma CountsAgreeStart(scores: ScoreMap, candidates: seq<Candidate>, left: string, row: Row)
    ensures CountsAgree(scores, candidates, left, row, 0)
  {
    assert candidates[..0] == [];
    assert RankedWith(scores, candidates, left, row, 0) == {};
  }

  lemma CountsAgreeStep(scores: ScoreMap, candidates: seq<Candidate>, left: string, row: Row, n: nat)
    requires n < |candidates| && CountsAgree(scores, candidates, left, row, n)
    ensures CountsAgree(scores, candidates, left, row, n + 1)
  {
    RowsCountStep(scores, candidates, left, row, n);
    RankedWithStep(scores, candidates, left, row, n);
  }

  lemma {:induction false} RowsForCounts(scores: ScoreMap, candidates: seq<Candidate>, left: string, row: Row, n: nat)
    requires n <= |candidates|
    ensures CountsAgree(scores, candidates, left, row, n)
  {
    if n == 0 {
      CountsAgreeStart(scores, candidates, left, row);
    } else {
      RowsForCounts(scores, candidates, left, row, n - 1);
      CountsAgreeStep(scores, candidates, left, row, n - 1);
    }
  }

  lemma RankedWithStep(scores: ScoreMap, candidates: seq<Candidate>, left: string, row: Row, n: nat)
    requires n < |candidates|
    ensures |RankedWith(scores, candidates, left, row, n + 1)|
         == |RankedWith(scores, candidates, left, row, n)|
            + (if RankedAs(scores, candidates[n], left, row) then 1 else 0)
  {
    GrowsBy(RankedWith(scores, candidates, left, row, n), RankedWith(scores, candidates, left, row, n + 1), n,
            RankedAs(scores, candidates[n], left, row));
  }

  /** Those of the first `n` candidates that have a known reference. */
  ghost function Scored(scores: ScoreMap, candidates: seq<Candidate>, n: nat): set<nat>
    requires n <= |candidates|
  {
    set i: nat | i < n && HasScore(scores, candidates[i])
  }

  ghost predicate HasScore(scores: ScoreMap, c: Candidate) { exists ref | ref in c.scoreRefs :: ref in scores }

  lemma ScoredStep(scores: ScoreMap, candidates: seq<Candidate>, n: nat)
    requires n < |candidates|
    ensures |Scored(scores, candidates, n + 1)|
         == |Scored(scores, candidates, n)| + (if HasScore(scores, candidates[n]) then 1 else 0)
  {
    GrowsBy(Scored(scores, candidates, n), Scored(scores, candidates, n + 1), n, HasScore(scores, candidates[n]));
  }

  /** The evaluated candidates are those with a known reference. */
  lemma {:induction false} EvaluatedExactly(scores: ScoreMap, candidates: seq<Candidate>, n: nat)
    requires n <= |candidates|
    ensures Evaluated(scores, candidates[..n]) == |Scored(scores, candidates, n)|
  {
    if n == 0 {
      assert Scored(scores, candidates, 0) == {};
    } else {
      EvaluatedExactly(scores, candidates, n - 1);
      ScoredStep(scores, candidates, n - 1);
      BestIsMaximum(scores, candidates[n - 1].scoreRefs);
      assert candidates[..n] == candidates[..n - 1] + [candidates[n - 1]];
      EvaluatedSnoc(scores, candidates[..n - 1], candidates[n - 1]);
    }
  }

  lemma SortedDescends(rows: seq<Row>)
    ensures Sorted(RANKED, rows) <==> Descends(rows)
  {
    if Descends(rows) {
      forall i, j | 0 <= i <= j < |rows| ensures RANKED(rows[i], rows[j]) {
        if i == j { LexTotal(rows[i].target, rows[i].target); }
      }
    }
  }

  /** The ranked targets of a column are those of a ranking, and of every ranking: best raw scores never
      rise along them, equal scores come in text order, and every scored candidate occurs, with the
      maximum of its known scores. */
  lemma RankedIsTheRanking(scores: ScoreMap, candidates: seq<Candidate>, left: string) returns (rows: seq<Row>)
    ensures IsRanking(scores, candidates, left, rows) && Targets(rows) == Ranked(scores, candidates, left)
    ensures forall other :: IsRanking(scores, candidates, left, other) ==> other == rows
  {
    var given := RowsFor(scores, candidates, left);
    rows := Sort(RANKED, given);
    RankedOrder();
    SortSorts(RANKED, given);
    SortedDescends(rows);
    assert candidates[..|candidates|] == candidates;
    forall row ensures multiset(rows)[row] == |RankedWith(scores, candidates, left, row, |candidates|)| {
      RowsForCounts(scores, candidates, left, row, |candidates|);
    }
    forall other | IsRanking(scores, candidates, left, other) ensures other == rows {
      assert multiset(other) == multiset(rows);
      SortedDescends(other);
      SortedUnique(RANKED, other, rows);
    }
  }

  // ---------------------------------------------------------------- the evaluation loops

  function Get(byLeft: map<string, seq<Row>>, left: string): seq<Row> { if left in byLeft then byLeft[left] else [] }

  function Evaluated(scores: ScoreMap, candidates: seq<Candidate>): nat {
    if candidates == [] then 0
    else Evaluated(scores, candidates[..|candidates| - 1])
         + (if Best(scores, candidates[|candidates| - 1].scoreRefs).Some? then 1 else 0)
  }

  lemma {:induction false} EvaluatedConcat(scores: ScoreMap, a: seq<Candidate>, b: seq<Candidate>)
    ensures Evaluated(scores, a + b) == Evaluated(scores, a) + Evaluated(scores, b)
  {
    if b == [] {
      assert a + b == a;
    } else {
      assert (a + b)[..|a + b| - 1] == a + b[..|b| - 1];
      EvaluatedConcat(scores, a, b[..|b| - 1]);
    }
  }

  lemma EvaluatedWithout(scores: ScoreMap, b: seq<Candidate>, k: nat)
    requires k < |b|
    ensures Evaluated(scores, b) == Evaluated(scores, [b[k]]) + Evaluated(scores, Without(b, k))
  {
    assert b == b[..k] + ([b[k]] + b[k + 1..]);
    EvaluatedConcat(scores, b[..k], [b[k]] + b[k + 1..]);
    EvaluatedConcat(scores, [b[k]], b[k + 1..]);
    EvaluatedConcat(scores, b[..k], b[k + 1..]);
  }

  /** The number of evaluated candidates does not depend on their order either. */
  lemma {:induction false} EvaluatedOrderFree(scores: ScoreMap, a: seq<Candidate>, b: seq<Candidate>)
    requires multiset(a) == multiset(b)
    ensures Evaluated(scores, a) == Evaluated(scores, b)
  {
    if a == [] {
      assert |b| == |multiset(b)| == 0;
    } else {
      assert a[0] in multiset(b);
      var k :| 0 <= k < |b| && b[k] == a[0];
      RestMultiset(a, b, k);
      EvaluatedOrderFree(scores, a[1..], Without(b, k));
      assert Without(a, 0) == a[1..];
      EvaluatedWithout(scores, a, 0);
      EvaluatedWithout(scores, b, k);
    }
  }

  ghost predicate Grouped(scores: ScoreMap, candidates: seq<Candidate>, byLeft: map<string, seq<Row>>) {
    forall left :: Get(byLeft, left) == RowsFor(scores, candidates, left)
  }

  lemma RowsSnoc(scores: ScoreMap, candidates: seq<Candidate>, c: Candidate, left: string)
    ensures RowsFor(scores, candidates + [c], left) == RowsFor(scores, candidates, left) + RowOf(scores, c, left)
  {
    assert (candidates + [c])[..|candidates|] == candidates;
  }

  lemma EvaluatedSnoc(scores: ScoreMap, candidates: seq<Candidate>, c: Candidate)
    ensures Evaluated(scores, candidates + [c])
         == Evaluated(scores, candidates) + (if Best(scores, c.scoreRefs).Some? then 1 else 0)
  {
    assert (candidates + [c])[..|candidates|] == candidates;
  }

  lemma SkipCandidate(scores: ScoreMap, candidates: seq<Candidate>, c: Candidate, byLeft: map<string, seq<Row>>)
    requires Grouped(scores, candidates, byLeft) && Best(scores, c.scoreRefs).None?
    ensures Grouped(scores, candidates + [c], byLeft)
  {
    forall left ensures Get(byLeft, left) == RowsFor(scores, candidates + [c], left) {
      RowsSnoc(scores, candidates, c, left);
    }
  }

  lemma AddCandidate(scores: ScoreMap, candidates: seq<Candidate>, c: Candidate, byLeft: map<string, seq<Row>>)
    requires Grouped(scores, candidates, byLeft) && Best(scores, c.scoreRefs).Some?
    ensures Grouped(scores, candidates + [c],
                    byLeft[c.source := Get(byLeft, c.source) + [Row(Best(scores, c.scoreRefs).value, c.target)]])
  {
    var more := byLeft[c.source := Get(byLeft, c.source) + [Row(Best(scores, c.scoreRefs).value, c.target)]];
    forall left ensures Get(more, left) == RowsFor(scores, candidates + [c], left) {
      assert Get(byLeft, left) == RowsFor(scores, candidates, left);
      RowsSnoc(scores, candidates, c, left);
    }
  }

  /** Group the scored candidates by source column, in arrival order. */
  method GroupByLeft(scores: ScoreMap, candidates: seq<Candidate>)
    returns (byLeft: map<string, seq<Row>>, count: nat)
    ensures forall left :: Get(byLeft, left) == RowsFor(scores, candidates, left)
    ensures count == Evaluated(scores, candidates)
  {
    byLeft, count := map[], 0;
    for i := 0 to |candidates|
      invariant Grouped(scores, candidates[..i], byLeft)
      invariant count == Evaluated(scores, candidates[..i])
    {
      var c := candidates[i];
      assert candidates[..i + 1] == candidates[..i] + [c];
      EvaluatedSnoc(scores, candidates[..i], c);
      var best := Best(scores, c.scoreRefs);
      if best.None? {
        SkipCandidate(scores, candidates[..i], c, byLeft);
      } else {
        AddCandidate(scores, candidates[..i], c, byLeft);
        byLeft := byLeft[c.source := Get(byLeft, c.source) + [Row(best.value, c.target)]];
        count := count + 1;
      }
    }
    assert candidates[..|candidates|] == candidates;
  }

  /** Sort every group in place. */
  method SortGroups(groups: map<string, seq<Row>>) returns (byLeft: map<string, seq<Row>>)
    ensures byLeft.Keys == groups.Keys
    ensures forall left | left in groups :: byLeft[left] == Sort(RANKED, groups[left])
  {
    byLeft := groups;
    var todo := groups.Keys;
    while todo != {}
      invariant todo <= byLeft.Keys == groups.Keys
      invariant forall left | left in groups ::
                  byLeft[left] == if left in todo then groups[left] else Sort(RANKED, groups[left])
    {
      var left :| left in todo;
      byLeft := byLeft[left := Sort(RANKED, byLeft[left])];
      todo := todo - {left};
    }
  }

  method EvaluateCandidates(scores: ScoreMap, candidates: seq<Candidate>, truth: set<Link>, negatives: set<Link>,
                            ks: seq<nat>)
    returns (recall: map<nat, real>, mrr: real, exposed: map<nat, nat>, evaluated: nat)
    ensures mrr == MeanReciprocalRank(Ranks(scores, candidates, truth))
    ensures forall k | k in ks :: k in recall && recall[k] == RecallAt(Ranks(scores, candidates, truth), k)
    ensures forall k | k in ks :: k in exposed && exposed[k] == |Hits(scores, candidates, negatives, k)|
    ensures evaluated == Evaluated(scores, candidates)
  {
    var groups, count := GroupByLeft(scores, candidates);
    var byLeft := SortGroups(groups);
    evaluated := count;
    GroupsAreRanked(scores, candidates, groups, byLeft);
    mrr := MeanRank(byLeft, truth, scores, candidates);
    recall := RecallTable(byLeft, truth, ks, scores, candidates);
    exposed := ExposureTable(byLeft, negatives, ks, scores, candidates);
  }

  method RecallTable(byLeft: map<string, seq<Row>>, truth: set<Link>, ks: seq<nat>, ghost scores: ScoreMap,
                     ghost candidates: seq<Candidate>) returns (recall: map<nat, real>)
    requires HoldsRanking(byLeft, scores, candidates)
    ensures forall k | k in ks :: k in recall && recall[k] == RecallAt(Ranks(scores, candidates, truth), k)
  {
    recall := map[];
    ghost var ranks := Ranks(scores, candidates, truth);
    for i := 0 to |ks|
      invariant Recalls(recall, ranks, ks[..i])
    {
      var hits := CountHits(byLeft, truth, ks[i], scores, candidates);
      var ratio := if truth == {} then 0.0 else hits as real / |truth| as real;
      RecallFromCount(scores, candidates, truth, ks[i]);
      RecallsStep(recall, ranks, ks, i);
      recall := recall[ks[i] := ratio];
    }
    assert ks[..|ks|] == ks;
  }

  ghost predicate Recalls(recall: map<nat, real>, ranks: map<Link, nat>, ks: seq<nat>) {
    forall k | k in ks :: k in recall && recall[k] == RecallAt(ranks, k)
  }

  lemma RecallsStep(recall: map<nat, real>, ranks: map<Link, nat>, ks: seq<nat>, i: nat)
    requires i < |ks| && Recalls(recall, ranks, ks[..i])
    ensures Recalls(recall[ks[i] := RecallAt(ranks, ks[i])], ranks, ks[..i + 1])
  {
    assert ks[..i + 1] == ks[..i] + [ks[i]];
  }

  method ExposureTable(byLeft: map<string, seq<Row>>, negatives: set<Link>, ks: seq<nat>, ghost scores: ScoreMap,
                       ghost candidates: seq<Candidate>) returns (exposed: map<nat, nat>)
    requires HoldsRanking(byLeft, scores, candidates)
    ensures forall k | k in ks :: k in exposed && exposed[k] == |Hits(scores, candidates, negatives, k)|
  {
    exposed := map[];
    for i := 0 to |ks|
      invariant forall k | k in ks[..i] :: k in exposed && exposed[k] == |Hits(scores, candidates, negatives, k)|
    {
      var count := CountHits(byLeft, negatives, ks[i], scores, candidates);
      exposed := exposed[ks[i] := count];
    }
  }

  ghost predicate HoldsRanking(byLeft: map<string, seq<Row>>, scores: ScoreMap, candidates: seq<Candidate>) {
    forall left :: Targets(Get(byLeft, left)) == Ranked(scores, candidates, left)
  }

  lemma GroupsAreRanked(scores: ScoreMap, candidates: seq<Candidate>, groups: map<string, seq<Row>>,
                        byLeft: map<string, seq<Row>>)
    requires forall left :: Get(groups, left) == RowsFor(scores, candidates, left)
    requires byLeft.Keys == groups.Keys && forall left | left in groups :: byLeft[left] == Sort(RANKED, groups[left])
    ensures HoldsRanking(byLeft, scores, candidates)
  {
    forall left ensures Targets(Get(byLeft, left)) == Ranked(scores, candidates, left) {
      assert Get(groups, left) == RowsFor(scores, candidates, left);
    }
  }

  method CountHits(byLeft: map<string, seq<Row>>, links: set<Link>, k: nat, ghost scores: ScoreMap,
                   ghost candidates: seq<Candidate>) returns (count: nat)
    requires HoldsRanking(byLeft, scores, candidates)
    ensures count == |Hits(scores, candidates, links, k)|
  {
    var hits := set t | t in links && t.right in Top(Targets(Get(byLeft, t.left)), k);
    assert hits == Hits(scores, candidates, links, k);
    count := |hits|;
  }

  lemma RecallFromCount(scores: ScoreMap, candidates: seq<Candidate>, truth: set<Link>, k: nat)
    ensures RecallAt(Ranks(scores, candidates, truth), k)
         == if truth == {} then 0.0 else |Hits(scores, candidates, truth, k)| as real / |truth| as real
  {
    HitsAreRanked(scores, candidates, truth, k);
    RanksSize(scores, candidates, truth);
  }

  lemma RanksSize(scores: ScoreMap, candidates: seq<Candidate>, truth: set<Link>)
    ensures |Ranks(scores, candidates, truth)| == |truth|
    ensures Ranks(scores, candidates, truth) == map[] <==> truth == {}
  {
    var ranks := Ranks(scores, candidates, truth);
    assert ranks.Keys == truth;
    assert |ranks| == |ranks.Keys|;
  }

  lemma MeanFromTotal(scores: ScoreMap, candidates: seq<Candidate>, truth: set<Link>)
    ensures SumReciprocal(Ranks(scores, candidates, {})) == 0.0
    ensures MeanReciprocalRank(Ranks(scores, candidates, truth))
         == if truth == {} then 0.0 else SumReciprocal(Ranks(scores, candidates, truth)) / |truth| as real
  {
    RanksSize(scores, candidates, truth);
    assert Ranks(scores, candidates, {}) == map[];
  }

  lemma RanksStep(scores: ScoreMap, candidates: seq<Candidate>, links: set<Link>, t: Link)
    requires t in links
    ensures SumReciprocal(Ranks(scores, candidates, links))
         == Reciprocal(Rank(Ranked(scores, candidates, t.left), t.right))
            + SumReciprocal(Ranks(scores, candidates, links - {t}))
  {
    SumStep(Ranks(scores, candidates, links), t);
    assert Ranks(scores, candidates, links) - {t} == Ranks(scores, candidates, links - {t});
  }

  /** Average the reciprocal ranks over the truth links, taken in any order. */
  method MeanRank(byLeft: map<string, seq<Row>>, truth: set<Link>, ghost scores: ScoreMap,
                  ghost candidates: seq<Candidate>) returns (mean: real)
    requires HoldsRanking(byLeft, scores, candidates)
    ensures mean == MeanReciprocalRank(Ranks(scores, candidates, truth))
  {
    var total, left := 0.0, truth;
    while left != {}
      invariant left <= truth
      invariant total + SumReciprocal(Ranks(scores, candidates, left))
             == SumReciprocal(Ranks(scores, candidates, truth))
    {
      var t :| t in left;
      RanksStep(scores, candidates, left, t);
      total := total + Reciprocal(Rank(Targets(Get(byLeft, t.left)), t.right));
      left := left - {t};
    }
    mean := if truth == {} then 0.0 else total / |truth| as real;
    MeanFromTotal(scores, candidates, truth);
  }
}
