/** The calibration threshold frontier (tools/run_step18_v4_evaluation.py, the loop in `main`). */
module Frontier {
  import opened Common

  /** One calibration decision: its query, its score, the endpoint it proposes, and whether it is
      incomplete or conflicted. */
  datatype Decision = Decision(query: string, score: real, endpoint: string, abstains: bool)

  datatype Label = Label(isMatch: bool, endpoint: string)

  datatype Point = Point(threshold: real, eligible: nat, selected: nat, truePositives: nat, falsePositives: int,
                         reviewRemainder: int, abstentions: nat)

  function Selected(rows: seq<Decision>, threshold: real): seq<Decision> {
    if rows == [] then []
    else if rows[0].score >= threshold then [rows[0]] + Selected(rows[1..], threshold)
    else Selected(rows[1..], threshold)
  }

  predicate IsTrue(truth: map<string, Label>, row: Decision) {
    row.query in truth && truth[row.query].isMatch && row.endpoint == truth[row.query].endpoint
  }

  function CountTrue(truth: map<string, Label>, rows: seq<Decision>): nat {
    if rows == [] then 0 else (if IsTrue(truth, rows[0]) then 1 else 0) + CountTrue(truth, rows[1..])
  }

  function CountAbstaining(rows: seq<Decision>): nat {
    if rows == [] then 0 else (if rows[0].abstains then 1 else 0) + CountAbstaining(rows[1..])
  }

  function Scores(rows: seq<Decision>): set<real> { set row | row in rows :: row.score }

  lemma {:induction false} HasMaximum(s: set<real>)
    requires exists x :: x in s
    ensures exists m :: m in s && forall x | x in s :: x <= m
  {
    var x :| x in s;
    if y :| y in s && y > x {
      var rest := s - {x};
      assert y in rest;
      HasMaximum(rest);
      var m :| m in rest && forall z | z in rest :: z <= m;
      assert forall z | z in s :: z == x || z in rest;
      assert m in s && forall z | z in s :: z <= m;
    }
  }

  function Maximum(s: set<real>): (m: real)
    requires exists x :: x in s
    ensures m in s && forall x | x in s :: x <= m
  {
    HasMaximum(s);
    var m :| m in s && forall x | x in s :: x <= m;
    m
  }

  /** `sorted(values, reverse=True)` of a set. */
  function Descending(s: set<real>): (r: seq<real>)
    ensures forall x :: x in r <==> x in s
    ensures forall i, j | 0 <= i < j < |r| :: r[i] > r[j]
  {
    if exists x :: x in s then
      var m := Maximum(s);
      var rest := Descending(s - {m});
      assert forall i | 0 <= i < |rest| :: rest[i] in rest;
      [m] + rest
    else []
  }

  function Thresholds(rows: seq<Decision>): seq<real> { Descending({0.0, 0.5, 1.0} + Scores(rows)) }

  function PointAt(rows: seq<Decision>, truth: map<string, Label>, threshold: real): Point {
    var selected := Selected(rows, threshold);
    var hits := CountTrue(truth, selected);
    Point(threshold, |rows|, |selected|, hits, |selected| - hits, |rows| - |selected|, CountAbstaining(selected))
  }

  /** One point for each threshold, in order. */
  ghost predicate PointsAt(rows: seq<Decision>, truth: map<string, Label>, thresholds: seq<real>, points: seq<Point>) {
    |points| == |thresholds| && forall i | 0 <= i < |points| :: points[i] == PointAt(rows, truth, thresholds[i])
  }

  method BuildFrontier(rows: seq<Decision>, truth: map<string, Label>) returns (points: seq<Point>)
    ensures PointsAt(rows, truth, Thresholds(rows), points)
  {
    points := [];
    var thresholds := Thresholds(rows);
    for i := 0 to |thresholds|
      invariant PointsAt(rows, truth, thresholds[..i], points)
    {
      var point := PointAt(rows, truth, thresholds[i]);
      points := points + [point];
    }
    assert thresholds[..|thresholds|] == thresholds;
  }

  // ---------------------------------------------------------------- order and balance

  /** Lowering the threshold keeps what was selected. */
  lemma {:induction false} SelectionGrows(rows: seq<Decision>, truth: map<string, Label>, high: real, low: real)
    requires low <= high
    ensures var few, many := Selected(rows, high), Selected(rows, low);
            && |few| <= |many| <= |rows| && CountTrue(truth, few) <= CountTrue(truth, many)
            && CountAbstaining(few) <= CountAbstaining(many)
  {
    if rows != [] {
      SelectionGrows(rows[1..], truth, high, low);
    }
  }

  lemma {:induction false} CountTrueBounded(truth: map<string, Label>, rows: seq<Decision>)
    ensures CountTrue(truth, rows) <= |rows|
  {
    if rows != [] { CountTrueBounded(truth, rows[1..]); }
  }

  /** Along the list the thresholds strictly fall while the selection and its true positives never
      fall, and at every point the counts balance. */
  lemma FrontierOrdered(rows: seq<Decision>, truth: map<string, Label>, i: nat, j: nat)
    requires i < j < |Thresholds(rows)|
    ensures var p, q := PointAt(rows, truth, Thresholds(rows)[i]), PointAt(rows, truth, Thresholds(rows)[j]);
            && p.threshold > q.threshold && p.selected <= q.selected && p.truePositives <= q.truePositives
            && p.abstentions <= q.abstentions && p.reviewRemainder >= q.reviewRemainder
            && p.truePositives + p.falsePositives == p.selected && p.falsePositives >= 0
            && p.selected + p.reviewRemainder == p.eligible && p.reviewRemainder >= 0
  {
    SelectionGrows(rows, truth, Thresholds(rows)[i], Thresholds(rows)[j]);
    CountTrueBounded(truth, Selected(rows, Thresholds(rows)[i]));
  }

  // ---------------------------------------------------------------- completeness

  lemma {:induction false} SameSelection(rows: seq<Decision>, t: real, u: real)
    requires forall row | row in rows :: row.score >= t <==> row.score >= u
    ensures Selected(rows, t) == Selected(rows, u)
  {
    if rows != [] {
      assert rows[0] in rows;
      SameSelection(rows[1..], t, u);
    }
  }

  lemma {:induction false} SelectedMembers(rows: seq<Decision>, t: real)
    ensures forall row :: row in Selected(rows, t) <==> row in rows && row.score >= t
  {
    if rows != [] { SelectedMembers(rows[1..], t); }
  }

  lemma {:induction false} LeastAbove(s: set<real>, t: real) returns (u: real)
    requires exists x :: x in s && x >= t
    ensures u in s && u >= t && forall x | x in s && x >= t :: u <= x
  {
    var x :| x in s && x >= t;
    if y :| y in s && t <= y < x {
      var rest := s - {x};
      assert y in rest;
      u := LeastAbove(rest, t);
      assert forall z | z in s :: z == x || z in rest;
    } else {
      u := x;
    }
  }

  ghost predicate Listed(rows: seq<Decision>, t: real) {
    exists u :: u in Thresholds(rows) && Selected(rows, u) == Selected(rows, t)
  }

  lemma ListedBelowTop(rows: seq<Decision>, t: real, row: Decision)
    requires row in rows && row.score >= t
    ensures Listed(rows, t)
  {
    assert row.score in Scores(rows);
    var u := LeastAbove(Scores(rows), t);
    forall r | r in rows ensures r.score >= t <==> r.score >= u { assert r.score in Scores(rows); }
    SameSelection(rows, u, t);
    assert u in Thresholds(rows);
  }

  lemma UnlistedAboveTop(rows: seq<Decision>, t: real, top: Decision)
    requires top in rows && top.score >= 1.0 && forall row | row in rows :: row.score < t
    ensures !Listed(rows, t)
  {
    SelectedMembers(rows, t);
    forall u | u in Thresholds(rows) ensures Selected(rows, u) != Selected(rows, t) {
      SelectedMembers(rows, u);
      if u in Scores(rows) {
        var row :| row in rows && row.score == u;
        assert row in Selected(rows, u);
      } else {
        assert top in Selected(rows, u);
      }
    }
  }

  /** The frontier shows what every real threshold selects, with exactly one possible gap: a
      threshold above every score, when there are scores and one of them reaches 1. */
  lemma FrontierComplete(rows: seq<Decision>, t: real)
    ensures Listed(rows, t)
       <==> rows == [] || (exists row | row in rows :: row.score >= t) || (forall row | row in rows :: row.score < 1.0)
  {
    if row :| row in rows && row.score >= t {
      ListedBelowTop(rows, t, row);
    } else if top :| top in rows && top.score >= 1.0 {
      UnlistedAboveTop(rows, t, top);
      assert rows != [];
    } else {
      SameSelection(rows, 1.0, t);
      assert 1.0 in Thresholds(rows);
    }
  }

  /** The gap at its smallest: one decision scored 1, and a threshold of 1.5 that selects nothing. */
  lemma ThresholdAboveOneUnlisted()
    ensures var rows := [Decision("q", 1.0, "e", false)];
            Selected(rows, 1.5) == [] && !Listed(rows, 1.5)
  {
    var rows := [Decision("q", 1.0, "e", false)];
    assert rows[0] in rows;
    FrontierComplete(rows, 1.5);
  }

  // ---------------------------------------------------------------- the counts of a point

  ghost predicate Reaches(row: Decision, threshold: real) { row.score >= threshold }

  /** The decision proposes the endpoint that the labels give its query as a match. */
  ghost predicate Correct(truth: map<string, Label>, row: Decision) {
    row.query in truth && truth[row.query].isMatch && truth[row.query].endpoint == row.endpoint
  }

  ghost function Positions(rows: seq<Decision>, threshold: real): set<nat> {
    set i: nat | i < |rows| && Reaches(rows[i], threshold)
  }

  ghost function CorrectPositions(rows: seq<Decision>, truth: map<string, Label>, threshold: real): set<nat> {
    set i: nat | i < |rows| && Reaches(rows[i], threshold) && Correct(truth, rows[i])
  }

  ghost function AbstainingPositions(rows: seq<Decision>, threshold: real): set<nat> {
    set i: nat | i < |rows| && Reaches(rows[i], threshold) && rows[i].abstains
  }

  lemma PointSnoc(rows: seq<Decision>, truth: map<string, Label>, threshold: real, last: Decision)
    ensures var p, q := PointAt(rows, truth, threshold), PointAt(rows + [last], truth, threshold);
            var picked := if Reaches(last, threshold) then 1 else 0;
            && q.selected == p.selected + picked && q.eligible == p.eligible + 1
            && q.truePositives == p.truePositives + (if Correct(truth, last) then picked else 0)
            && q.abstentions == p.abstentions + (if last.abstains then picked else 0)
  {
    SelectedConcat(rows, [last], threshold);
    CountsConcat(truth, Selected(rows, threshold), Selected([last], threshold));
  }

  lemma {:induction false} SelectedConcat(a: seq<Decision>, b: seq<Decision>, threshold: real)
    ensures Selected(a + b, threshold) == Selected(a, threshold) + Selected(b, threshold)
  {
    if a == [] {
      assert a + b == b;
    } else {
      assert (a + b)[1..] == a[1..] + b;
      SelectedConcat(a[1..], b, threshold);
    }
  }

  lemma {:induction false} CountsConcat(truth: map<string, Label>, a: seq<Decision>, b: seq<Decision>)
    ensures CountTrue(truth, a + b) == CountTrue(truth, a) + CountTrue(truth, b)
    ensures CountAbstaining(a + b) == CountAbstaining(a) + CountAbstaining(b)
  {
    if a == [] {
      assert a + b == b;
    } else {
      assert (a + b)[1..] == a[1..] + b;
      CountsConcat(truth, a[1..], b);
    }
  }

  lemma PositionsStep(rows: seq<Decision>, threshold: real, last: Decision)
    ensures |Positions(rows + [last], threshold)|
         == |Positions(rows, threshold)| + (if Reaches(last, threshold) then 1 else 0)
  {
    GrowsBy(Positions(rows, threshold), Positions(rows + [last], threshold), |rows|, Reaches(last, threshold));
  }

  lemma CorrectStep(rows: seq<Decision>, truth: map<string, Label>, threshold: real, last: Decision)
    ensures |CorrectPositions(rows + [last], truth, threshold)|
         == |CorrectPositions(rows, truth, threshold)|
            + (if Reaches(last, threshold) && Correct(truth, last) then 1 else 0)
  {
    GrowsBy(CorrectPositions(rows, truth, threshold), CorrectPositions(rows + [last], truth, threshold), |rows|,
            Reaches(last, threshold) && Correct(truth, last));
  }

  lemma AbstainingStep(rows: seq<Decision>, threshold: real, last: Decision)
    ensures |AbstainingPositions(rows + [last], threshold)|
         == |AbstainingPositions(rows, threshold)| + (if Reaches(last, threshold) && last.abstains then 1 else 0)
  {
    GrowsBy(AbstainingPositions(rows, threshold), AbstainingPositions(rows + [last], threshold), |rows|,
            Reaches(last, threshold) && last.abstains);
  }

  ghost predicate Counted(rows: seq<Decision>, truth: map<string, Label>, threshold: real) {
    var p := PointAt(rows, truth, threshold);
    && p.selected == |Positions(rows, threshold)| && p.truePositives == |CorrectPositions(rows, truth, threshold)|
    && p.abstentions == |AbstainingPositions(rows, threshold)|
  }

  lemma CountedStep(rows: seq<Decision>, truth: map<string, Label>, threshold: real, last: Decision)
    requires Counted(rows, truth, threshold)
    ensures Counted(rows + [last], truth, threshold)
  {
    PositionsStep(rows, threshold, last);
    CorrectStep(rows, truth, threshold, last);
    AbstainingStep(rows, threshold, last);
    PointSnoc(rows, truth, threshold, last);
  }

  lemma CountedStart(truth: map<string, Label>, threshold: real)
    ensures Counted([], truth, threshold)
  {
    assert Positions([], threshold) == CorrectPositions([], truth, threshold) == {};
    assert AbstainingPositions([], threshold) == {};
  }

  lemma {:induction false} AlwaysCounted(rows: seq<Decision>, truth: map<string, Label>, threshold: real)
    ensures Counted(rows, truth, threshold)
  {
    if rows == [] {
      CountedStart(truth, threshold);
    } else {
      var n := |rows| - 1;
      AlwaysCounted(rows[..n], truth, threshold);
      CountedStep(rows[..n], truth, threshold, rows[n]);
      assert rows[..n] + [rows[n]] == rows;
    }
  }

  /** A point counts the decisions whose score reaches its threshold, and among them those that propose the
      labelled endpoint of a match and those that abstain; the rest are false positives and remainder. */
  lemma PointCounts(rows: seq<Decision>, truth: map<string, Label>, threshold: real)
    ensures var p := PointAt(rows, truth, threshold);
            && p.threshold == threshold && p.eligible == |rows|
            && p.selected == |Positions(rows, threshold)|
            && p.truePositives == |CorrectPositions(rows, truth, threshold)|
            && p.falsePositives == p.selected - p.truePositives && p.reviewRemainder == p.eligible - p.selected
            && p.abstentions == |AbstainingPositions(rows, threshold)|
  {
    AlwaysCounted(rows, truth, threshold);
  }

  /** The thresholds are 0, one half, 1 and the scores, each once, from the greatest down. */
  lemma ThresholdsExactly(rows: seq<Decision>, t: real)
    ensures t in Thresholds(rows) <==> t == 0.0 || t == 0.5 || t == 1.0 || exists row | row in rows :: row.score == t
    ensures forall i, j | 0 <= i < j < |Thresholds(rows)| :: Thresholds(rows)[i] > Thresholds(rows)[j]
  {}
}
